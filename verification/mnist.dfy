/**
 * The MNIST and Fashion-MNIST tasks of src/tasks/task_mnist.cpp: the IDX
 * files are read as a 16-byte image header followed by 28x28-byte luma
 * images, and an 8-byte label header followed by one byte per label.
 *
 * Files are given by their decompressed contents (`None` when the file
 * cannot be read). `load_archive` of core/archive.h is not part of this
 * model; it is taken to hand those contents to the callback once and to
 * succeed exactly when the callback does. `add_samples`, which spreads the
 * labelled images over the folds, is the parameter `addSamples`.
 */
module Mnist {
  import opened Strings
  import opened Wrappers
  import opened MemVision

  datatype Kind = Digits | Fashion

  /** The task's name in log messages. */
  function Name(k: Kind): string
  {
    match k
    case Digits => "MNIST"
    case Fashion => "Fashion-MNIST"
  }

  /** The default data directory, below the home directory. */
  function DirName(k: Kind): string
  {
    match k
    case Digits => "/experiments/databases/mnist"
    case Fashion => "/experiments/databases/fashion-mnist"
  }

  /** The class names, in label order. */
  function Labels(k: Kind): seq<string>
  {
    match k
    case Digits => ["digit0", "digit1", "digit2", "digit3", "digit4",
                    "digit5", "digit6", "digit7", "digit8", "digit9"]
    case Fashion => ["T-shirt/top", "Trouser", "Pullover", "Dress", "Coat",
                     "Sandal", "Shirt", "Sneaker", "Bag", "Ankle boot"]
  }

  const ImageRows := 28
  const ImageCols := 28
  const Classes := 10
  const ImageHeaderSize := 16
  const LabelHeaderSize := 8

  /** Bytes per image, `irows * icols`. */
  const BlockSize := ImageRows * ImageCols

  /** The input shape: one luma channel of 28x28. */
  const InputDims := Dims3(1, ImageRows, ImageCols)

  /** The output shape: one score per class. */
  const OutputDims := Dims3(Classes, 1, 1)

  /** There is one class name per output, and no two classes share a name. */
  lemma LabelsMatchOutputs(k: Kind)
    ensures |Labels(k)| == Size(OutputDims) == 10
    ensures forall i, j :: 0 <= i < j < |Labels(k)| ==> Labels(k)[i] != Labels(k)[j]
  {
  }

  /** The digit classes are named "digit" followed by their decimal label. */
  lemma DigitLabels()
    ensures forall i :: 0 <= i < 10 ==> Labels(Digits)[i] == "digit" + NatToString(i)
  {
    forall i | 0 <= i < 10
      ensures Labels(Digits)[i] == "digit" + NatToString(i)
    {
      assert NatToString(i) == [DigitChar(i)];
    }
  }

  /** The task state: the in-memory vision task, its data directory and its fold count. */
  datatype MnistTask<S> = MnistTask(base: Task<seq<byte>, S>, dir: string, folds: nat)

  /** The constructor: 1x28x28 inputs, 10 outputs, 10 folds, data below `home`. */
  function NewTask<S>(k: Kind, home: string, folds: nat): (t: MnistTask<S>)
    ensures Color(t.base) == Luma && NImages(t.base) == 0
    ensures |t.dir| == |home| + |DirName(k)| && t.dir[|home|..] == DirName(k)
  {
    MnistTask(MakeTask(InputDims, OutputDims, 10), home + DirName(k), folds)
  }

  /** `from_json`: a new directory and fold count, with the shapes set again. */
  function FromJson<S>(t: MnistTask<S>, dir: string, folds: nat): (r: MnistTask<S>)
    ensures r.dir == dir && r.folds == folds && r.base.fsize == folds
    ensures r.base.idims == InputDims && r.base.odims == OutputDims
    ensures r.base.chunks == t.base.chunks && r.base.samples == t.base.samples
  {
    MnistTask(Reconfig(t.base, InputDims, OutputDims, folds), dir, folds)
  }

  /** The reference framing: the complete `n`-byte blocks of `d`, in order. */
  function Blocks(d: seq<byte>, n: nat): seq<seq<byte>>
    requires n > 0
    decreases |d|
  {
    if |d| < n then [] else [d[..n]] + Blocks(d[n..], n)
  }

  /** What the framing leaves over: the trailing partial block. */
  function Leftover(d: seq<byte>, n: nat): seq<byte>
    requires n > 0
    decreases |d|
  {
    if |d| < n then d else Leftover(d[n..], n)
  }

  function Flatten(bs: seq<seq<byte>>): seq<byte>
  {
    if bs == [] then [] else bs[0] + Flatten(bs[1..])
  }

  /**
   * The blocks are all `n` bytes long and, followed by a leftover shorter
   * than a block, give back the input: the framing loses only a trailing
   * partial block.
   */
  lemma {:induction false} BlocksSplit(d: seq<byte>, n: nat)
    requires n > 0
    ensures forall i :: 0 <= i < |Blocks(d, n)| ==> |Blocks(d, n)[i]| == n
    ensures Flatten(Blocks(d, n)) + Leftover(d, n) == d
    ensures |Leftover(d, n)| < n
    decreases |d|
  {
    if |d| >= n {
      BlocksSplit(d[n..], n);
      var bs := Blocks(d, n);
      assert bs[1..] == Blocks(d[n..], n);
      assert d == d[..n] + d[n..];
      forall i | 0 <= i < |bs|
        ensures |bs[i]| == n
      {
        if i > 0 {
          assert bs[i] == bs[1..][i - 1];
        }
      }
    }
  }

  /** The number of bytes an `istream_t::read` of `n` delivers at position `pos`. */
  function ReadCount(d: seq<byte>, pos: nat, n: nat): nat
    requires pos <= |d|
  {
    if pos + n <= |d| then n else |d| - pos
  }

  /**
   * The image callback: read the 16-byte header, then one image per
   * complete block. It fails only when the header is short.
   */
  method ReadImages(d: seq<byte>) returns (ok: bool, images: seq<seq<byte>>)
    ensures ok <==> |d| >= ImageHeaderSize
    ensures ok ==> images == Blocks(d[ImageHeaderSize..], BlockSize)
    ensures !ok ==> images == []
  {
    images := [];
    if ReadCount(d, 0, ImageHeaderSize) != ImageHeaderSize {
      return false, [];
    }
    var pos := ImageHeaderSize;
    while ReadCount(d, pos, BlockSize) == BlockSize
      invariant ImageHeaderSize <= pos <= |d|
      invariant images + Blocks(d[pos..], BlockSize) == Blocks(d[ImageHeaderSize..], BlockSize)
      decreases |d| - pos
    {
      assert d[pos..][..BlockSize] == d[pos..pos + BlockSize];
      assert d[pos..][BlockSize..] == d[pos + BlockSize..];
      images := images + [d[pos..pos + BlockSize]];
      pos := pos + BlockSize;
    }
    return true, images;
  }

  /** `static_cast` of a `char` read from the file: bytes from 128 up are negative. */
  function SignedChar(b: byte): int
  {
    if b < 128 then b as int else b as int - 256
  }

  predicate ValidLabel(b: byte)
  {
    0 <= SignedChar(b) < Size(OutputDims)
  }

  /** A label byte is accepted exactly when it is below 10. */
  lemma ValidLabelIff(b: byte)
    ensures ValidLabel(b) <==> b < 10
  {
  }

  /**
   * The label callback: read the 8-byte header, then one label per byte.
   * It fails on a short header, on any label outside `[0, 10)` and when
   * the number of labels is not `count`.
   */
  method ReadLabels(d: seq<byte>, count: nat) returns (r: Option<seq<int>>)
    ensures r.Some? <==>
      && |d| >= LabelHeaderSize
      && (forall i :: LabelHeaderSize <= i < |d| ==> ValidLabel(d[i]))
      && |d| - LabelHeaderSize == count
    ensures r.Some? ==>
      && |r.value| == count
      && forall i :: 0 <= i < count ==> r.value[i] == d[LabelHeaderSize + i] as int && 0 <= r.value[i] < Classes
  {
    if ReadCount(d, 0, LabelHeaderSize) != LabelHeaderSize {
      return None;
    }
    var pos := LabelHeaderSize;
    var labels: seq<int> := [];
    while ReadCount(d, pos, 1) == 1
      invariant LabelHeaderSize <= pos <= |d| && |labels| == pos - LabelHeaderSize
      invariant forall i :: LabelHeaderSize <= i < pos ==> ValidLabel(d[i])
      invariant forall i :: 0 <= i < |labels| ==> labels[i] == d[LabelHeaderSize + i] as int
      decreases |d| - pos
    {
      var value := SignedChar(d[pos]);
      if value < 0 || value >= Size(OutputDims) {
        return None;
      }
      labels := labels + [value];
      pos := pos + 1;
    }
    if |labels| != count {
      return None;
    }
    return Some(labels);
  }

  /** The image file was read far enough to pass its header check. */
  predicate ImagesRead(ifile: Option<seq<byte>>)
  {
    ifile.Some? && |ifile.value| >= ImageHeaderSize
  }

  /** The images an image file contributes: its complete 784-byte blocks after the header. */
  function ImagesOf(ifile: Option<seq<byte>>): seq<seq<byte>>
  {
    if ImagesRead(ifile) then Blocks(ifile.value[ImageHeaderSize..], BlockSize) else []
  }

  /** The labels a label file yields when it passes every check, one per byte after the header. */
  function LabelsOf(gfile: Option<seq<byte>>, count: nat): Option<seq<int>>
  {
    if && gfile.Some? && |gfile.value| == LabelHeaderSize + count
       && (forall i :: LabelHeaderSize <= i < |gfile.value| ==> ValidLabel(gfile.value[i]))
    then Some(seq(count, i requires 0 <= i < count => gfile.value[LabelHeaderSize + i] as int))
    else None
  }

  /** The samples one call of `load_binary` adds: none unless both files pass their checks. */
  function AddedSamples<S>(ifile: Option<seq<byte>>, gfile: Option<seq<byte>>, p: Protocol, count: nat,
                           addSamples: (Protocol, seq<int>) -> seq<S>): seq<S>
  {
    if ImagesRead(ifile) && LabelsOf(gfile, count).Some? then addSamples(p, LabelsOf(gfile, count).value) else []
  }

  /** When `load_binary` returns true: both files pass, with `count` images and `count * folds` samples. */
  predicate LoadOk<S>(folds: nat, ifile: Option<seq<byte>>, gfile: Option<seq<byte>>, p: Protocol, count: nat,
                      addSamples: (Protocol, seq<int>) -> seq<S>)
  {
    && ImagesRead(ifile) && |ImagesOf(ifile)| == count
    && LabelsOf(gfile, count).Some?
    && |addSamples(p, LabelsOf(gfile, count).value)| == count * folds
  }

  /** The task after one call of `load_binary`, whatever it returns. */
  function AfterLoad<S>(t: MnistTask<S>, ifile: Option<seq<byte>>, gfile: Option<seq<byte>>, p: Protocol, count: nat,
                        addSamples: (Protocol, seq<int>) -> seq<S>): MnistTask<S>
  {
    t.(base := t.base.(chunks := t.base.chunks + ImagesOf(ifile),
                       samples := t.base.samples + AddedSamples(ifile, gfile, p, count, addSamples)))
  }

  /**
   * `load_binary(ifile, gfile, p, count)`: store the images, then read the
   * labels and add their samples; succeed only when exactly `count` images
   * were stored and `count * folds` samples were added. Images stay stored
   * even when the labels are then rejected.
   */
  method LoadBinary<S>(t: MnistTask<S>, ifile: Option<seq<byte>>, gfile: Option<seq<byte>>,
                       p: Protocol, count: nat, addSamples: (Protocol, seq<int>) -> seq<S>)
    returns (ok: bool, r: MnistTask<S>)
    ensures r == AfterLoad(t, ifile, gfile, p, count, addSamples)
    ensures ok <==> LoadOk(t.folds, ifile, gfile, p, count, addSamples)
    ensures ok ==>
      && NImages(r.base) == NImages(t.base) + count
      && r.base.chunks == t.base.chunks + Blocks(ifile.value[ImageHeaderSize..], BlockSize)
      && |r.base.samples| == |t.base.samples| + count * t.folds
  {
    r := t;
    if ifile.None? {
      return false, r;
    }
    var iok, images := ReadImages(ifile.value);
    if !iok {
      return false, r;
    }
    r := r.(base := r.base.(chunks := r.base.chunks + images));
    if gfile.None? {
      return false, r;
    }
    var labels := ReadLabels(gfile.value, count);
    if labels.None? {
      return false, r;
    }
    assert labels.value == seq(count, i requires 0 <= i < count => gfile.value[LabelHeaderSize + i] as int);
    var added := addSamples(p, labels.value);
    r := r.(base := r.base.(samples := r.base.samples + added));
    ok := NImages(r.base) == NImages(t.base) + count && |r.base.samples| == |t.base.samples| + count * t.folds;
  }

  /** The files of one protocol, below the data directory. */
  function ImageFile(dir: string, p: Protocol): string
  {
    match p
    case Train => dir + "/train-images-idx3-ubyte.gz"
    case Test => dir + "/t10k-images-idx3-ubyte.gz"
  }

  function LabelFile(dir: string, p: Protocol): string
  {
    match p
    case Train => dir + "/train-labels-idx1-ubyte.gz"
    case Test => dir + "/t10k-labels-idx1-ubyte.gz"
  }

  /** The number of samples each protocol must have. */
  function Expected(p: Protocol): nat
  {
    match p
    case Train => 60000
    case Test => 10000
  }

  /** `load_binary` on the two files of a protocol succeeds. */
  predicate ProtocolOk<S>(t: MnistTask<S>, files: string -> Option<seq<byte>>, p: Protocol,
                          addSamples: (Protocol, seq<int>) -> seq<S>)
  {
    LoadOk(t.folds, files(ImageFile(t.dir, p)), files(LabelFile(t.dir, p)), p, Expected(p), addSamples)
  }

  /** The task after `load_binary` on the two files of a protocol. */
  function AfterProtocol<S>(t: MnistTask<S>, files: string -> Option<seq<byte>>, p: Protocol,
                            addSamples: (Protocol, seq<int>) -> seq<S>): MnistTask<S>
  {
    AfterLoad(t, files(ImageFile(t.dir, p)), files(LabelFile(t.dir, p)), p, Expected(p), addSamples)
  }

  /**
   * `populate`: load the training files, then the test files; a failure
   * of the first stops before the second. `files` gives the decompressed
   * contents of a path.
   */
  method Populate<S>(t: MnistTask<S>, files: string -> Option<seq<byte>>,
                     addSamples: (Protocol, seq<int>) -> seq<S>)
    returns (ok: bool, r: MnistTask<S>)
    ensures ok <==>
      && ProtocolOk(t, files, Train, addSamples)
      && ProtocolOk(AfterProtocol(t, files, Train, addSamples), files, Test, addSamples)
    ensures !ProtocolOk(t, files, Train, addSamples) ==> r == AfterProtocol(t, files, Train, addSamples)
    ensures ProtocolOk(t, files, Train, addSamples) ==>
      r == AfterProtocol(AfterProtocol(t, files, Train, addSamples), files, Test, addSamples)
    ensures ok ==> NImages(r.base) == NImages(t.base) + Expected(Train) + Expected(Test)
    ensures ok ==> |r.base.samples| == |t.base.samples| + (Expected(Train) + Expected(Test)) * t.folds
    ensures ok ==> files(LabelFile(t.dir, Train)).Some? && files(LabelFile(t.dir, Test)).Some?
    ensures ok ==> |files(LabelFile(t.dir, Train)).value| == LabelHeaderSize + Expected(Train)
    ensures ok ==> |files(LabelFile(t.dir, Test)).value| == LabelHeaderSize + Expected(Test)
  {
    var trainOk, trained := LoadBinary(t, files(ImageFile(t.dir, Train)), files(LabelFile(t.dir, Train)),
                                       Train, Expected(Train), addSamples);
    if !trainOk {
      return false, trained;
    }
    ok, r := LoadBinary(trained, files(ImageFile(t.dir, Test)), files(LabelFile(t.dir, Test)),
                        Test, Expected(Test), addSamples);
  }

  /** The training and test files are four different paths. */
  lemma FilesDistinct(dir: string)
    ensures ImageFile(dir, Train) != ImageFile(dir, Test)
    ensures LabelFile(dir, Train) != LabelFile(dir, Test)
    ensures ImageFile(dir, Train) != LabelFile(dir, Train)
    ensures ImageFile(dir, Test) != LabelFile(dir, Test)
  {
    var a, b := ImageFile(dir, Train), ImageFile(dir, Test);
    assert a[|dir| + 1] == 't' && b[|dir| + 1] == 't';
    assert a[|dir| + 2] != b[|dir| + 2];
    var c, e := LabelFile(dir, Train), LabelFile(dir, Test);
    assert c[|dir| + 2] != e[|dir| + 2];
    assert a[|dir| + 7] != c[|dir| + 7];
    assert b[|dir| + 6] != e[|dir| + 6];
  }
}
