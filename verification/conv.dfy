/**
 * The convolution layer of src/cortex/layers/layer_convolution.cpp: the
 * configuration clamps and the sizes `resize` gives the buffers, the
 * parameter layout (kernels, then biases), the bias step of `output` and
 * the bias part of `gparam`.
 *
 * The 2D convolution and correlation kernels (tensor/conv2d_dyn.hpp,
 * tensor/corr2d_dyn.hpp) are not part of this model: their results are
 * parameters. Scalars are modelled as exact reals.
 */
module Convolution {
  import opened Arith
  import opened Wrappers

  /** The layer's configuration as written, before clamping: "dims", "rows" and "cols". */
  datatype Params = Params(dims: int, rows: int, cols: int)

  /** The default configuration: 16 output planes of 8x8 kernels. */
  const DefaultParams := Params(16, 8, 8)

  /** A layer after `resize`: input planes and size, output planes, kernel size. */
  datatype Layer = Layer(idims: nat, irows: nat, icols: nat, odims: nat, krows: nat, kcols: nat)

  function ORows(l: Layer): int { l.irows - l.krows + 1 }
  function OCols(l: Layer): int { l.icols - l.kcols + 1 }

  /** The number of kernel coefficients, `idims * odims * krows * kcols`. */
  function KSize(l: Layer): nat { l.idims * l.odims * l.krows * l.kcols }

  /** `psize()`: kernels and one bias per output plane. */
  function PSize(l: Layer): nat { KSize(l) + l.odims }

  /** The buffer shapes `resize` sets up. */
  datatype Shapes = Shapes(input: seq<int>, output: seq<int>, kernels: seq<int>, bias: seq<int>)

  function BufferShapes(l: Layer): Shapes
  {
    Shapes([l.idims, l.irows, l.icols], [l.odims, ORows(l), OCols(l)],
           [l.idims, l.odims, l.krows, l.kcols], [l.odims, 1, 1])
  }

  /**
   * `resize(tensor)`: clamp the output planes to `[1, 256]` and the kernel
   * sides to `[1, 32]`, and fail when the kernel does not fit the input.
   */
  function Resize(p: Params, idims: nat, irows: nat, icols: nat): (r: Result<Layer, string>)
    ensures r.Success? <==> irows >= Clamp(p.rows, 1, 32) && icols >= Clamp(p.cols, 1, 32)
    ensures r.Success? ==>
      var l := r.value;
      && l.idims == idims && l.irows == irows && l.icols == icols
      && 1 <= l.odims <= 256 && 1 <= l.krows <= 32 && 1 <= l.kcols <= 32
      && (1 <= p.dims <= 256 ==> l.odims == p.dims)
      && (1 <= p.rows <= 32 ==> l.krows == p.rows)
      && (1 <= p.cols <= 32 ==> l.kcols == p.cols)
      && ORows(l) >= 1 && OCols(l) >= 1
    ensures r.Failure? ==> r.error == "invalid configuration for the convolution layer"
  {
    var odims := Clamp(p.dims, 1, 256);
    var krows := Clamp(p.rows, 1, 32);
    var kcols := Clamp(p.cols, 1, 32);
    if irows < krows || icols < kcols then
      Failure("invalid configuration for the convolution layer")
    else
      Success(Layer(idims, irows, icols, odims, krows, kcols))
  }
  /**
   * With no "dims", "rows" or "cols" given, `resize` builds 16 output planes
   * of 8x8 kernels, on any input of at least 8x8.
   */
  lemma ResizeDefaults(idims: nat, irows: nat, icols: nat)
    ensures Resize(DefaultParams, idims, irows, icols).Success? <==> irows >= 8 && icols >= 8
    ensures irows >= 8 && icols >= 8 ==>
      var l := Resize(DefaultParams, idims, irows, icols).value;
      && l.odims == 16 && l.krows == 8 && l.kcols == 8
      && BufferShapes(l).output == [16, irows - 7, icols - 7]
      && PSize(l) == idims * 16 * 64 + 16
  {
  }


  /**
   * The output keeps the kernel-sized border out: it is as large as the
   * input less the kernel plus one, and the input size is recovered from
   * the output size and the kernel size.
   */
  lemma ResizeShapes(p: Params, idims: nat, irows: nat, icols: nat)
    requires Resize(p, idims, irows, icols).Success?
    ensures var l := Resize(p, idims, irows, icols).value;
      var s := BufferShapes(l);
      && s.input == [idims, irows, icols]
      && s.output[1] + l.krows - 1 == irows && s.output[2] + l.kcols - 1 == icols
      && 1 <= s.output[1] <= irows && 1 <= s.output[2] <= icols
      && s.kernels[0] == s.input[0] && s.kernels[1] == s.output[0] == s.bias[0]
  {
  }

  /** Resizing again to the same input gives the same layer. */
  lemma ResizeDeterministic(l: Layer)
    requires 1 <= l.odims <= 256 && 1 <= l.krows <= l.irows && l.krows <= 32 && 1 <= l.kcols <= l.icols && l.kcols <= 32
    ensures Resize(Params(l.odims, l.krows, l.kcols), l.idims, l.irows, l.icols) == Success(l)
  {
  }

  /** `save_params`: the kernels, then the biases, in one flat array. */
  function SaveParams(kdata: seq<real>, bdata: seq<real>): (params: seq<real>)
    ensures |params| == |kdata| + |bdata|
    ensures forall o :: 0 <= o < |bdata| ==> params[|kdata| + o] == bdata[o]
  {
    kdata + bdata
  }

  /** What `load_params` reads: the kernels, the biases and the rest of the array. */
  datatype Loaded = Loaded(kdata: seq<real>, bdata: seq<real>, rest: seq<real>)

  /** `load_params`: read the kernel coefficients, then the biases, from the front of the array. */
  function LoadParams(params: seq<real>, ksize: nat, bsize: nat): (r: Loaded)
    requires ksize + bsize <= |params|
    ensures |r.kdata| == ksize && |r.bdata| == bsize
    ensures r.kdata + r.bdata + r.rest == params
  {
    Loaded(params[..ksize], params[ksize..ksize + bsize], params[ksize + bsize..])
  }

  /** Loading what was saved gives back the kernels and biases and leaves the rest of the array untouched. */
  lemma ParamsRoundTrip(kdata: seq<real>, bdata: seq<real>, rest: seq<real>)
    ensures LoadParams(SaveParams(kdata, bdata) + rest, |kdata|, |bdata|) == Loaded(kdata, bdata, rest)
  {
    var params := SaveParams(kdata, bdata) + rest;
    assert params[..|kdata|] == kdata;
    assert params[|kdata|..|kdata| + |bdata|] == bdata;
    assert params[|kdata| + |bdata|..] == rest;
  }

  /** Saving what was loaded gives back the array it was read from. */
  lemma ParamsRoundTripBack(params: seq<real>, ksize: nat, bsize: nat)
    requires ksize + bsize <= |params|
    ensures var r := LoadParams(params, ksize, bsize);
      SaveParams(r.kdata, r.bdata) + r.rest == params
  {
  }

  function Sum(v: seq<real>): real
  {
    if v == [] then 0.0 else v[0] + Sum(v[1..])
  }

  /** The bias step of `output`: every value of output plane `o` is raised by `bias[o]`. */
  function AddBias(conv: seq<seq<real>>, bias: seq<real>): (out: seq<seq<real>>)
    requires |conv| == |bias|
    ensures |out| == |conv|
    ensures forall o :: 0 <= o < |out| ==> |out[o]| == |conv[o]|
  {
    seq(|conv|, o requires 0 <= o < |conv| =>
      seq(|conv[o]|, k requires 0 <= k < |conv[o]| => conv[o][k] + bias[o]))
  }

  /** Adding a constant to every value raises the sum by the count times the constant. */
  lemma {:induction false} SumShift(v: seq<real>, b: real)
    ensures Sum(seq(|v|, k requires 0 <= k < |v| => v[k] + b)) == Sum(v) + |v| as real * b
  {
    if v != [] {
      var w := seq(|v|, k requires 0 <= k < |v| => v[k] + b);
      assert w[1..] == seq(|v[1..]|, k requires 0 <= k < |v[1..]| => v[1..][k] + b);
      SumShift(v[1..], b);
    }
  }

  /**
   * `gparam`: the kernel gradient (computed by the convolution kernel,
   * here `kgrad`) fills the first `ksize` entries, and the gradient of
   * bias `o` at `ksize + o` is the sum of output plane `o`.
   */
  function GParam(l: Layer, kgrad: seq<real>, output: seq<seq<real>>): (g: seq<real>)
    requires |kgrad| == KSize(l) && |output| == l.odims
    ensures |g| == PSize(l)
    ensures g[..KSize(l)] == kgrad
    ensures forall o :: 0 <= o < l.odims ==> g[KSize(l) + o] == Sum(output[o])
  {
    kgrad + seq(l.odims, o requires 0 <= o < l.odims => Sum(output[o]))
  }

  /** The gradient read back with the parameter layout has the kernel gradient in the kernel slot and the plane sums in the bias slot. */
  lemma GParamSlots(l: Layer, kgrad: seq<real>, output: seq<seq<real>>)
    requires |kgrad| == KSize(l) && |output| == l.odims
    ensures var r := LoadParams(GParam(l, kgrad, output), KSize(l), l.odims);
      && r.kdata == kgrad && r.rest == []
      && forall o :: 0 <= o < l.odims ==> r.bdata[o] == Sum(output[o])
  {
    var g := GParam(l, kgrad, output);
    var r := LoadParams(g, KSize(l), l.odims);
    forall o | 0 <= o < l.odims
      ensures r.bdata[o] == Sum(output[o])
    {
      assert r.bdata[o] == g[KSize(l) + o];
    }
  }

  /** A plane raised by its bias sums to the plane's sum plus its size times the bias. */
  lemma AddBiasSum(conv: seq<seq<real>>, bias: seq<real>, o: nat)
    requires |conv| == |bias| && o < |conv|
    ensures Sum(AddBias(conv, bias)[o]) == Sum(conv[o]) + |conv[o]| as real * bias[o]
  {
    assert AddBias(conv, bias)[o] == seq(|conv[o]|, k requires 0 <= k < |conv[o]| => conv[o][k] + bias[o]);
    SumShift(conv[o], bias[o]);
  }

  /**
   * For an output produced by the bias step, the bias gradient of plane
   * `o` is the convolution's sum plus the plane's size (`orows * ocols`
   * for a resized layer) times the bias.
   */
  lemma GParamOfBiasedOutput(l: Layer, kgrad: seq<real>, conv: seq<seq<real>>, bias: seq<real>, o: nat)
    requires |kgrad| == KSize(l) && |conv| == l.odims && |bias| == l.odims && o < l.odims
    ensures var r := LoadParams(GParam(l, kgrad, AddBias(conv, bias)), KSize(l), l.odims);
      r.bdata[o] == Sum(conv[o]) + |conv[o]| as real * bias[o]
  {
    var out := AddBias(conv, bias);
    GParamSlots(l, kgrad, out);
    AddBiasSum(conv, bias, o);
  }

  /** A tensor's shape, as the debug assertions of `output`, `ginput` and `gparam` compare it. */
  predicate InputMatches(l: Layer, dims: seq<int>)
  {
    dims == BufferShapes(l).input
  }

  /**
   * `output(input)`: the convolution of the input (the parameter `conv`,
   * one plane per output) plus the bias. The input must have the resized
   * input shape and the result has the output shape.
   */
  function Output(l: Layer, inputDims: seq<int>, conv: seq<seq<real>>, bias: seq<real>): (out: seq<seq<real>>)
    requires InputMatches(l, inputDims)
    requires |conv| == l.odims && |bias| == l.odims
    requires forall o :: 0 <= o < l.odims ==> |conv[o]| == ORows(l) * OCols(l)
    ensures |out| == BufferShapes(l).output[0]
    ensures forall o :: 0 <= o < |out| ==> |out[o]| == ORows(l) * OCols(l)
    ensures forall o, k :: 0 <= o < |out| && 0 <= k < |out[o]| ==> out[o][k] - conv[o][k] == bias[o]
  {
    AddBias(conv, bias)
  }
}
