/**
 * The in-memory vision task of src/tasks/task_mem_vision.h: a task whose
 * inputs are images held in memory ("chunks") and whose samples point into
 * them. The colour mode of the task is carried by the channel count of its
 * input dimensions.
 *
 * The generic in-memory task underneath (task_mem.h) is not part of this
 * model; it is taken to start empty, to store its dimensions and fold
 * count as given to `reconfig`, and to append on `add_chunk`.
 */
module MemVision {

  datatype ColorMode = Luma | Rgb | Rgba

  /** The machine learning protocol a sample belongs to. */
  datatype Protocol = Train | Test

  /** The fold a sample belongs to: the fold's index and the protocol within it. */
  datatype Fold = Fold(index: nat, protocol: Protocol)

  /** A 3D tensor shape: channels (or outputs), rows, columns. */
  datatype Dims3 = Dims3(d0: int, d1: int, d2: int)

  function Size(d: Dims3): int
  {
    d.d0 * d.d1 * d.d2
  }

  /** The channel count of a colour mode, as the constructor and `reconfig` choose it. */
  function Channels(c: ColorMode): (n: int)
    ensures n in {1, 3, 4}
    ensures ColorOf(n) == c
  {
    match c
    case Rgba => 4
    case Rgb => 3
    case Luma => 1
  }

  /** `color()`: the colour mode a channel count stands for; unknown counts read as luma. */
  function ColorOf(channels: int): (c: ColorMode)
    ensures channels in {3, 4} ==> c != Luma
  {
    match channels
    case 1 => Luma
    case 3 => Rgb
    case 4 => Rgba
    case _ => Luma
  }

  /** The input shape of a vision task for a colour mode and an image size. */
  function VisionDims(c: ColorMode, irows: int, icols: int): (d: Dims3)
    ensures d.d1 == irows && d.d2 == icols
  {
    Dims3(Channels(c), irows, icols)
  }

  datatype Task<I, S> = Task(idims: Dims3, odims: Dims3, fsize: nat, chunks: seq<I>, samples: seq<S>)

  /** The constructor from shapes: no images and no samples yet. */
  function MakeTask<I, S>(idims: Dims3, odims: Dims3, fsize: nat): (t: Task<I, S>)
    ensures t.chunks == [] && t.samples == []
  {
    Task(idims, odims, fsize, [], [])
  }

  /** The constructor from a colour mode and an image size. */
  function MakeVisionTask<I, S>(c: ColorMode, irows: int, icols: int, odims: Dims3, fsize: nat): Task<I, S>
  {
    MakeTask(VisionDims(c, irows, icols), odims, fsize)
  }

  /** The shape-level `reconfig`: new shapes and fold count, the same images and samples. */
  function Reconfig<I, S>(t: Task<I, S>, idims: Dims3, odims: Dims3, fsize: nat): (r: Task<I, S>)
    ensures r.chunks == t.chunks && r.samples == t.samples
  {
    t.(idims := idims, odims := odims, fsize := fsize)
  }

  /** `reconfig` from a colour mode: the same shape the constructor would have built. */
  function ReconfigVision<I, S>(t: Task<I, S>, c: ColorMode, irows: int, icols: int, odims: Dims3, fsize: nat): Task<I, S>
  {
    Reconfig(t, VisionDims(c, irows, icols), odims, fsize)
  }

  function Color<I, S>(t: Task<I, S>): ColorMode
  {
    ColorOf(t.idims.d0)
  }

  /** `n_images()`: the number of stored images. */
  function NImages<I, S>(t: Task<I, S>): nat
  {
    |t.chunks|
  }

  /** `image(i)`: the `i`-th stored image. */
  function Image<I, S>(t: Task<I, S>, i: nat): I
    requires i < NImages(t)
  {
    t.chunks[i]
  }

  /** `add_chunk`: store one more image. */
  function AddChunk<I, S>(t: Task<I, S>, image: I): (r: Task<I, S>)
    ensures r.idims == t.idims && r.odims == t.odims && r.fsize == t.fsize && r.samples == t.samples
  {
    t.(chunks := t.chunks + [image])
  }

  /** The channel counts are 1, 3 and 4, one per mode. */
  lemma ChannelsDistinct(a: ColorMode, b: ColorMode)
    ensures Channels(a) in {1, 3, 4}
    ensures Channels(a) == Channels(b) <==> a == b
  {
  }

  /** Reading a channel count: 4 is rgba, 3 is rgb, and every other count is luma. */
  lemma ColorOfCases(channels: int)
    ensures ColorOf(channels) == Rgba <==> channels == 4
    ensures ColorOf(channels) == Rgb <==> channels == 3
    ensures ColorOf(channels) == Luma <==> channels != 3 && channels != 4
  {
  }

  /** A channel count is recovered from its colour mode exactly when it is one of 1, 3 and 4. */
  lemma ChannelsOfColor(channels: int)
    ensures Channels(ColorOf(channels)) == channels <==> channels in {1, 3, 4}
  {
  }

  /** A task built for a colour mode reports that mode, and holds images of the requested size. */
  lemma ColorRoundTrip<I, S>(c: ColorMode, irows: int, icols: int, odims: Dims3, fsize: nat)
    ensures var t := MakeVisionTask<I, S>(c, irows, icols, odims, fsize);
      && Color(t) == c
      && t.idims.d1 == irows && t.idims.d2 == icols
      && NImages(t) == 0
  {
  }

  /**
   * Reconfiguring with a colour mode gives the shapes a freshly built task
   * would have, reports that mode, and keeps the stored images.
   */
  lemma ReconfigLikeConstructor<I, S>(t: Task<I, S>, c: ColorMode, irows: int, icols: int, odims: Dims3, fsize: nat)
    ensures var r := ReconfigVision(t, c, irows, icols, odims, fsize);
      var built := MakeVisionTask<I, S>(c, irows, icols, odims, fsize);
      && r.idims == built.idims && r.odims == built.odims && r.fsize == built.fsize
      && Color(r) == c
      && r.chunks == t.chunks
  {
  }

  /** Storing an image makes it the last one and leaves the earlier ones where they were. */
  lemma AddChunkImage<I, S>(t: Task<I, S>, image: I)
    ensures var r := AddChunk(t, image);
      && NImages(r) == NImages(t) + 1
      && Image(r, NImages(t)) == image
      && forall i :: 0 <= i < NImages(t) ==> Image(r, i) == Image(t, i)
  {
  }
}
