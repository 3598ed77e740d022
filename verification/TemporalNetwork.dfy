/** The dilated causal network of backend/debug_scripts/debug_tcn.py.

    A signal is one batch element in time order: one frame of channel values per step.
    A convolution is its textbook sum over the zero-padded signal, ReLU is max(0, x), and
    the weights are arbitrary reals. */
module TemporalNetwork {
  import opened Options

  type Frame = seq<real>
  type Signal = seq<Frame>

  /** `taps[j][o]` holds the weights of tap `j` for output channel `o`, one per input channel. */
  datatype Conv = Conv(taps: seq<seq<Frame>>, bias: Frame)

  predicate FrameShape(v: Frame, channels: nat) {
    |v| == channels
  }

  predicate Shaped(x: Signal, channels: nat) {
    forall t :: 0 <= t < |x| ==> FrameShape(x[t], channels)
  }

  predicate ConvShaped(c: Conv, inputs: nat, outputs: nat, kernel: nat) {
    && |c.taps| == kernel
    && |c.bias| == outputs
    && forall j :: 0 <= j < kernel ==> |c.taps[j]| == outputs && Shaped(c.taps[j], inputs)
  }

  function Dot(w: Frame, v: Frame): real
    requires |w| == |v|
  {
    if |w| == 0 then 0.0 else w[0] * v[0] + Dot(w[1..], v[1..])
  }

  function Constant(channels: nat, value: real): Frame {
    seq(channels, _ => value)
  }

  /** The zero-padded signal: every step outside it reads as zeros. */
  function Padded(x: Signal, channels: nat, at: int): (v: Frame)
    requires Shaped(x, channels)
    ensures |v| == channels
  {
    if 0 <= at < |x| then x[at] else Constant(channels, 0.0)
  }

  /** The frame under tap `j` when the first tap sits at `start`. */
  function Tap(x: Signal, channels: nat, start: int, dilation: nat, j: nat): (v: Frame)
    requires Shaped(x, channels)
    ensures |v| == channels
  {
    Padded(x, channels, start + j * dilation)
  }

  /** The weighted sum of taps `j` and later for output channel `o`. */
  function TapSum(c: Conv, inputs: nat, x: Signal, start: int, dilation: nat, o: nat, j: nat): real
    requires ConvShaped(c, inputs, |c.bias|, |c.taps|) && Shaped(x, inputs)
    requires o < |c.bias| && j <= |c.taps|
    decreases |c.taps| - j
  {
    if j == |c.taps| then 0.0
    else Dot(c.taps[j][o], Tap(x, inputs, start, dilation, j)) + TapSum(c, inputs, x, start, dilation, o, j + 1)
  }

  function ConvFrame(c: Conv, inputs: nat, x: Signal, start: int, dilation: nat): (v: Frame)
    requires ConvShaped(c, inputs, |c.bias|, |c.taps|) && Shaped(x, inputs)
    ensures |v| == |c.bias|
  {
    seq(|c.bias|, o requires 0 <= o < |c.bias| => c.bias[o] + TapSum(c, inputs, x, start, dilation, o, 0))
  }

  function ConvFrames(c: Conv, inputs: nat, x: Signal, dilation: nat, padding: nat, count: nat): (y: Signal)
    requires ConvShaped(c, inputs, |c.bias|, |c.taps|) && Shaped(x, inputs)
    ensures |y| == count
    ensures forall t :: 0 <= t < count ==> y[t] == ConvFrame(c, inputs, x, t - padding, dilation)
    ensures Shaped(y, |c.bias|)
  {
    seq(count, t requires 0 <= t < count => ConvFrame(c, inputs, x, t - padding, dilation))
  }

  /** nn.Conv1d with stride 1: both ends padded, one frame per position the dilated kernel fits. */
  function Conv1d(c: Conv, inputs: nat, x: Signal, dilation: nat, padding: nat): (y: Signal)
    requires ConvShaped(c, inputs, |c.bias|, |c.taps|) && Shaped(x, inputs) && |c.taps| >= 1
    ensures Shaped(y, |c.bias|)
  {
    var fits := |x| + 2 * padding - (|c.taps| - 1) * dilation;
    ConvFrames(c, inputs, x, dilation, padding, if fits < 0 then 0 else fits)
  }

  /** Python's `x[:, :, :-size]`: a size of 0 slices to the empty signal. */
  function Chomp(x: Signal, size: nat): Signal {
    if size == 0 || size >= |x| then [] else x[..|x| - size]
  }

  function ReluFrame(v: Frame): Frame {
    seq(|v|, i requires 0 <= i < |v| => if v[i] > 0.0 then v[i] else 0.0)
  }

  function AddFrame(u: Frame, v: Frame): Frame
    requires |u| == |v|
  {
    seq(|u|, i requires 0 <= i < |u| => u[i] + v[i])
  }

  function Relu(x: Signal): (y: Signal)
    ensures |y| == |x|
  {
    seq(|x|, t requires 0 <= t < |x| => ReluFrame(x[t]))
  }

  /** conv, chomp and ReLU: one of the two halves of a block's `net`. */
  function Stage(c: Conv, inputs: nat, x: Signal, dilation: nat, padding: nat): (y: Signal)
    requires ConvShaped(c, inputs, |c.bias|, |c.taps|) && Shaped(x, inputs) && |c.taps| >= 1
    ensures Shaped(y, |c.bias|)
  {
    Relu(Chomp(Conv1d(c, inputs, x, dilation, padding), padding))
  }

  datatype Block = Block(inputs: nat, outputs: nat, dilation: nat, padding: nat,
                         conv1: Conv, conv2: Conv, downsample: Option<Conv>)

  /** What TCNModel builds: a causal block of kernel `k`, with a 1x1 convolution on the
      residual path exactly when the channel counts differ. */
  predicate CausalBlock(b: Block, k: nat) {
    && k >= 2
    && b.dilation >= 1
    && b.padding == (k - 1) * b.dilation
    && ConvShaped(b.conv1, b.inputs, b.outputs, k)
    && ConvShaped(b.conv2, b.outputs, b.outputs, k)
    && (if b.inputs == b.outputs then b.downsample.None?
        else b.downsample.Some? && ConvShaped(b.downsample.value, b.inputs, b.outputs, 1))
  }

  function Residual(b: Block, k: nat, x: Signal): (y: Signal)
    requires CausalBlock(b, k) && Shaped(x, b.inputs)
    ensures |y| == |x| && Shaped(y, b.outputs)
  {
    if b.downsample.None? then x else Conv1d(b.downsample.value, b.inputs, x, 1, 0)
  }

  /** A stage of a causal block keeps the length; without any padding the chomp leaves nothing. */
  lemma {:induction false} StageLength(c: Conv, inputs: nat, x: Signal, dilation: nat)
    requires ConvShaped(c, inputs, |c.bias|, |c.taps|) && Shaped(x, inputs) && |c.taps| >= 1
    ensures var padding := (|c.taps| - 1) * dilation;
            |Stage(c, inputs, x, dilation, padding)| == |x| <==> padding > 0 || x == []
  {
    var padding := (|c.taps| - 1) * dilation;
    assert |Conv1d(c, inputs, x, dilation, padding)| == |x| + padding;
  }

  function Net(b: Block, k: nat, x: Signal): (y: Signal)
    requires CausalBlock(b, k) && Shaped(x, b.inputs)
    ensures |y| == |x| && Shaped(y, b.outputs)
  {
    PaddingPositive(k, b.dilation);
    StageLength(b.conv1, b.inputs, x, b.dilation);
    var half := Stage(b.conv1, b.inputs, x, b.dilation, b.padding);
    StageLength(b.conv2, b.outputs, half, b.dilation);
    Stage(b.conv2, b.outputs, half, b.dilation, b.padding)
  }

  lemma {:induction false} PaddingPositive(k: nat, dilation: nat)
    requires k >= 2 && dilation >= 1
    ensures (k - 1) * dilation >= 1
  {
  }

  /** relu(out + res), step by step. */
  function Merge(out: Signal, res: Signal, channels: nat): (y: Signal)
    requires |out| == |res| && Shaped(out, channels) && Shaped(res, channels)
    ensures |y| == |out| && Shaped(y, channels)
  {
    seq(|out|, t requires 0 <= t < |out| => ReluFrame(AddFrame(out[t], res[t])))
  }

  function BlockForward(b: Block, k: nat, x: Signal): (y: Signal)
    requires CausalBlock(b, k) && Shaped(x, b.inputs)
    ensures |y| == |x| && Shaped(y, b.outputs)
  {
    Merge(Net(b, k, x), Residual(b, k, x), b.outputs)
  }

  /** A stack of causal blocks whose channel counts chain. */
  predicate Stack(blocks: seq<Block>, k: nat) {
    && (forall i :: 0 <= i < |blocks| ==> CausalBlock(blocks[i], k))
    && (forall i, j :: 0 <= i < |blocks| && j == i + 1 && j < |blocks| ==> blocks[j].inputs == blocks[i].outputs)
  }

  /** The signal after blocks `i` and later. */
  function RunFrom(blocks: seq<Block>, k: nat, i: nat, x: Signal): (y: Signal)
    requires Stack(blocks, k) && i <= |blocks|
    requires i < |blocks| ==> Shaped(x, blocks[i].inputs)
    ensures |y| == |x|
    ensures i < |blocks| ==> Shaped(y, blocks[|blocks| - 1].outputs)
    decreases |blocks| - i
  {
    if i == |blocks| then x else RunFrom(blocks, k, i + 1, BlockForward(blocks[i], k, x))
  }

  datatype Model = Model(kernel: nat, blocks: seq<Block>, weight: seq<Frame>, bias: Frame)

  function Pow2(n: nat): (p: nat)
    ensures p >= 1
  {
    if n == 0 then 1 else 2 * Pow2(n - 1)
  }

  /** The shape TCNModel.__init__ gives a model: dilation 2^i and padding (k-1)*2^i in block i. */
  predicate Built(m: Model) {
    && m.kernel >= 2
    && |m.blocks| >= 1
    && Stack(m.blocks, m.kernel)
    && (forall i :: 0 <= i < |m.blocks| ==> m.blocks[i].dilation == Pow2(i))
    && |m.weight| == |m.bias|
    && Shaped(m.weight, m.blocks[|m.blocks| - 1].outputs)
  }

  /** nn.Linear. */
  function Linear(weight: seq<Frame>, bias: Frame, v: Frame): (y: Frame)
    requires |weight| == |bias| && Shaped(weight, |v|)
    ensures |y| == |bias|
  {
    seq(|bias|, o requires 0 <= o < |bias| => bias[o] + Dot(weight[o], v))
  }

  /** TCNModel.forward: the linear readout of the last step. */
  function Forward(m: Model, x: Signal): (y: Frame)
    requires Built(m) && |x| >= 1 && Shaped(x, m.blocks[0].inputs)
    ensures |y| == |m.bias|
  {
    Linear(m.weight, m.bias, RunFrom(m.blocks, m.kernel, 0, x)[|x| - 1])
  }

  datatype BlockWeights = BlockWeights(conv1: Conv, conv2: Conv, downsample: Conv)

  function Inputs(inputSize: nat, numChannels: seq<nat>, i: nat): nat
    requires i < |numChannels|
  {
    if i == 0 then inputSize else numChannels[i - 1]
  }

  predicate WeightsShaped(w: BlockWeights, inputs: nat, outputs: nat, k: nat) {
    && ConvShaped(w.conv1, inputs, outputs, k)
    && ConvShaped(w.conv2, outputs, outputs, k)
    && ConvShaped(w.downsample, inputs, outputs, 1)
  }

  /** TemporalBlock.__init__ as TCNModel calls it. */
  function Layer(inputs: nat, outputs: nat, dilation: nat, k: nat, w: BlockWeights): Block
    requires k >= 1
  {
    Block(inputs, outputs, dilation, (k - 1) * dilation, w.conv1, w.conv2,
          if inputs != outputs then Some(w.downsample) else None)
  }

  /** Layer i has the channels, dilation 2^i and padding (k-1)*2^i of its level. */
  predicate Levels(layers: seq<Block>, inputSize: nat, numChannels: seq<nat>, k: nat, init: seq<BlockWeights>)
    requires k >= 1 && |init| == |numChannels| >= |layers|
  {
    forall i :: 0 <= i < |layers| ==>
      layers[i] == Layer(Inputs(inputSize, numChannels, i), numChannels[i], Pow2(i), k, init[i])
  }

  lemma {:induction false} LayerIsCausal(inputs: nat, outputs: nat, dilation: nat, k: nat, w: BlockWeights)
    requires k >= 2 && dilation >= 1 && WeightsShaped(w, inputs, outputs, k)
    ensures CausalBlock(Layer(inputs, outputs, dilation, k, w), k)
  {
  }

  /** With well-shaped weights the layers TCNModel builds are a stack of causal blocks. */
  lemma {:induction false} LevelsStack(layers: seq<Block>, inputSize: nat, numChannels: seq<nat>, k: nat,
                                       init: seq<BlockWeights>)
    requires k >= 2 && |init| == |numChannels| == |layers|
    requires forall i :: 0 <= i < |init| ==>
      WeightsShaped(init[i], Inputs(inputSize, numChannels, i), numChannels[i], k)
    requires Levels(layers, inputSize, numChannels, k, init)
    ensures Stack(layers, k)
  {
    forall i | 0 <= i < |layers|
      ensures CausalBlock(layers[i], k)
    {
      LayerIsCausal(Inputs(inputSize, numChannels, i), numChannels[i], Pow2(i), k, init[i]);
    }
  }

  /** TCNModel.__init__: the layer list, grown one level at a time. The initial weights are a
      parameter; the 1x1 convolution is used only where the channel counts differ. */
  method BuildLayers(inputSize: nat, numChannels: seq<nat>, kernel: nat, init: seq<BlockWeights>)
    returns (layers: seq<Block>)
    requires kernel >= 1 && |init| == |numChannels|
    ensures |layers| == |numChannels| && Levels(layers, inputSize, numChannels, kernel, init)
  {
    layers := [];
    for i := 0 to |numChannels|
      invariant |layers| == i && Levels(layers, inputSize, numChannels, kernel, init)
    {
      var dilation := Pow2(i);
      var inputs := Inputs(inputSize, numChannels, i);
      var layer := Layer(inputs, numChannels[i], dilation, kernel, init[i]);
      layers := layers + [layer];
      assert Levels(layers, inputSize, numChannels, kernel, init) by {
        hide Layer, Inputs, Pow2;
      }
    }
  }

  // ---------------------------------------------------------------- the layer equations

  /** f(0) + ... + f(n - 1) */
  function SumUpTo(n: nat, f: nat -> real): real {
    if n == 0 then 0.0 else SumUpTo(n - 1, f) + f(n - 1)
  }

  function Positive(v: real): real {
    if v < 0.0 then 0.0 else v
  }

  /** Channel `i` of the signal `back` steps before step `t`; zero before the signal begins. */
  function Earlier(x: Signal, i: nat, t: nat, back: nat): real {
    if back <= t < |x| + back && i < |x[t - back]| then x[t - back][i] else 0.0
  }

  /** The weight of input channel `i` of tap `j` for output channel `o`. */
  function WeightAt(c: Conv, o: nat, j: nat, i: nat): real {
    if j < |c.taps| && o < |c.taps[j]| && i < |c.taps[j][o]| then c.taps[j][o][i] else 0.0
  }

  /** How far before the current step tap `j` of `k` sits. */
  function StepsBack(k: nat, j: nat, dilation: nat): nat
    requires j < k
  {
    (k - 1 - j) * dilation
  }

  /** What tap `j` adds to output channel `o` at step `t`: the last tap sits on the step
      itself, the one before it `dilation` steps earlier, and so on. */
  function TapShare(c: Conv, inputs: nat, x: Signal, dilation: nat, t: nat, o: nat, j: nat): real {
    if j < |c.taps| then
      SumUpTo(inputs, (i: nat) => WeightAt(c, o, j, i) * Earlier(x, i, t, StepsBack(|c.taps|, j, dilation)))
    else 0.0
  }

  /** The textbook causal convolution. */
  function Response(c: Conv, inputs: nat, x: Signal, dilation: nat, t: nat, o: nat): real
    requires o < |c.bias|
  {
    c.bias[o] + SumUpTo(|c.taps|, (j: nat) => TapShare(c, inputs, x, dilation, t, o, j))
  }

  lemma {:induction false} SumSame(n: nat, f: nat -> real, g: nat -> real)
    requires forall i: nat :: i < n ==> f(i) == g(i)
    ensures SumUpTo(n, f) == SumUpTo(n, g)
  {
    if n > 0 {
      SumSame(n - 1, f, g);
    }
  }

  lemma {:induction false} DotSnoc(w: Frame, v: Frame)
    requires |w| == |v| >= 1
    ensures var n := |w| - 1; Dot(w, v) == Dot(w[..n], v[..n]) + w[n] * v[n]
  {
    var n := |w| - 1;
    if n > 0 {
      DotSnoc(w[1..], v[1..]);
      assert w[1..][..n - 1] == w[..n][1..] && v[1..][..n - 1] == v[..n][1..];
    }
  }

  lemma {:induction false} DotIsSum(w: Frame, v: Frame, f: nat -> real)
    requires |w| == |v| && forall i: nat :: i < |w| ==> f(i) == w[i] * v[i]
    ensures Dot(w, v) == SumUpTo(|w|, f)
  {
    if |w| > 0 {
      var n := |w| - 1;
      DotSnoc(w, v);
      DotIsSum(w[..n], v[..n], f);
    }
  }

  lemma {:induction false} TapsAreSum(c: Conv, inputs: nat, x: Signal, start: int, dilation: nat, o: nat, j: nat,
                                      f: nat -> real)
    requires ConvShaped(c, inputs, |c.bias|, |c.taps|) && Shaped(x, inputs) && o < |c.bias| && j <= |c.taps|
    requires forall i: nat :: i < |c.taps| ==> f(i) == Dot(c.taps[i][o], Tap(x, inputs, start, dilation, i))
    ensures TapSum(c, inputs, x, start, dilation, o, 0) == SumUpTo(j, f) + TapSum(c, inputs, x, start, dilation, o, j)
  {
    if j > 0 {
      TapsAreSum(c, inputs, x, start, dilation, o, j - 1, f);
    }
  }

  lemma {:induction false} TapIsShare(c: Conv, inputs: nat, x: Signal, dilation: nat, t: nat, o: nat, j: nat)
    requires ConvShaped(c, inputs, |c.bias|, |c.taps|) && Shaped(x, inputs)
    requires o < |c.bias| && j < |c.taps| && t < |x|
    ensures Dot(c.taps[j][o], Tap(x, inputs, t - (|c.taps| - 1) * dilation, dilation, j))
         == TapShare(c, inputs, x, dilation, t, o, j)
  {
    var back := StepsBack(|c.taps|, j, dilation);
    TapBack(|c.taps|, j, dilation);
    var v := Tap(x, inputs, t - (|c.taps| - 1) * dilation, dilation, j);
    assert v == Padded(x, inputs, t - back);
    assert FrameShape(c.taps[j][o], inputs);
    assert t >= back ==> FrameShape(x[t - back], inputs);
    var f := (i: nat) => WeightAt(c, o, j, i) * Earlier(x, i, t, back);
    DotIsSum(c.taps[j][o], v, f);
    SumSame(inputs, f, (i: nat) => WeightAt(c, o, j, i) * Earlier(x, i, t, StepsBack(|c.taps|, j, dilation)));
  }

  lemma {:induction false} TapBack(k: nat, j: nat, dilation: nat)
    requires j < k
    ensures (k - 1) * dilation == j * dilation + StepsBack(k, j, dilation)
  {
  }

  /** The zero-padded convolution read at a step is the textbook sum. */
  lemma {:induction false} FrameIsResponse(c: Conv, inputs: nat, x: Signal, dilation: nat, t: nat, o: nat)
    requires ConvShaped(c, inputs, |c.bias|, |c.taps|) && Shaped(x, inputs) && o < |c.bias| && t < |x|
    requires |c.taps| >= 1
    ensures ConvFrame(c, inputs, x, t - (|c.taps| - 1) * dilation, dilation)[o]
         == Response(c, inputs, x, dilation, t, o)
  {
    hide Dot, Tap, TapShare;
    var f := (j: nat) => TapShare(c, inputs, x, dilation, t, o, j);
    forall j: nat | j < |c.taps|
      ensures f(j) == Dot(c.taps[j][o], Tap(x, inputs, t - (|c.taps| - 1) * dilation, dilation, j))
    {
      TapIsShare(c, inputs, x, dilation, t, o, j);
    }
    TapsAreSum(c, inputs, x, t - (|c.taps| - 1) * dilation, dilation, o, |c.taps|, f);
    SumSame(|c.taps|, f, (j: nat) => TapShare(c, inputs, x, dilation, t, o, j));
  }

  /** Conv, chomp and ReLU together: the positive part of the textbook convolution. */
  predicate ConvLayer(c: Conv, inputs: nat, x: Signal, dilation: nat, y: Signal) {
    && |y| == |x|
    && forall t :: 0 <= t < |y| ==>
         |y[t]| == |c.bias| && forall o :: 0 <= o < |c.bias| ==>
           y[t][o] == Positive(Response(c, inputs, x, dilation, t, o))
  }

  lemma {:induction false} StageIsConvLayer(c: Conv, inputs: nat, x: Signal, dilation: nat)
    requires ConvShaped(c, inputs, |c.bias|, |c.taps|) && Shaped(x, inputs)
    requires |c.taps| >= 2 && dilation >= 1
    ensures ConvLayer(c, inputs, x, dilation, Stage(c, inputs, x, dilation, (|c.taps| - 1) * dilation))
  {
    hide Stage, Response, ConvFrame;
    var y := Stage(c, inputs, x, dilation, (|c.taps| - 1) * dilation);
    PaddingPositive(|c.taps|, dilation);
    StageLength(c, inputs, x, dilation);
    forall t | 0 <= t < |x|
      ensures |y[t]| == |c.bias|
      ensures forall o :: 0 <= o < |c.bias| ==> y[t][o] == Positive(Response(c, inputs, x, dilation, t, o))
    {
      StageAt(c, inputs, x, dilation, t);
      forall o | 0 <= o < |c.bias|
        ensures y[t][o] == Positive(Response(c, inputs, x, dilation, t, o))
      {
        FrameIsResponse(c, inputs, x, dilation, t, o);
      }
    }
  }

  /** The equations of TemporalBlock.forward: `half` is the signal between the two
      convolutions, and the input comes back in, through a 1x1 convolution if there is one. */
  predicate BlockEquations(b: Block, x: Signal, half: Signal, y: Signal) {
    && ConvLayer(b.conv1, b.inputs, x, b.dilation, half)
    && |y| == |x|
    && |b.conv2.bias| == b.outputs
    && forall t :: 0 <= t < |y| ==> |y[t]| == b.outputs && forall o :: 0 <= o < b.outputs ==>
         y[t][o] == Positive(Positive(Response(b.conv2, b.outputs, half, b.dilation, t, o)) + Skip(b, x, t, o))
  }

  function Skip(b: Block, x: Signal, t: nat, o: nat): real {
    if b.downsample.None? then Earlier(x, o, t, 0)
    else if o < |b.downsample.value.bias| then Response(b.downsample.value, b.inputs, x, 1, t, o) else 0.0
  }

  lemma {:induction false} ConvLayerIsStage(c: Conv, inputs: nat, x: Signal, dilation: nat, y: Signal)
    requires ConvShaped(c, inputs, |c.bias|, |c.taps|) && Shaped(x, inputs)
    requires |c.taps| >= 2 && dilation >= 1 && ConvLayer(c, inputs, x, dilation, y)
    ensures y == Stage(c, inputs, x, dilation, (|c.taps| - 1) * dilation)
  {
    hide Stage, Response;
    StageIsConvLayer(c, inputs, x, dilation);
    var z := Stage(c, inputs, x, dilation, (|c.taps| - 1) * dilation);
    forall t | 0 <= t < |x|
      ensures y[t] == z[t]
    {
    }
  }

  /** The 1x1 convolution, or the input itself. */
  lemma {:induction false} ResidualIsSkip(b: Block, k: nat, x: Signal, t: nat, o: nat)
    requires CausalBlock(b, k) && Shaped(x, b.inputs) && t < |x| && o < b.outputs
    ensures FrameShape(Residual(b, k, x)[t], b.outputs) && Residual(b, k, x)[t][o] == Skip(b, x, t, o)
  {
    assert FrameShape(x[t], b.inputs) && FrameShape(Residual(b, k, x)[t], b.outputs);
    if b.downsample.Some? {
      FrameIsResponse(b.downsample.value, b.inputs, x, 1, t, o);
    }
  }

  /** The signal between a block's two convolutions. */
  function Half(b: Block, k: nat, x: Signal): (y: Signal)
    requires CausalBlock(b, k) && Shaped(x, b.inputs)
    ensures |y| == |x| && Shaped(y, b.outputs)
  {
    PaddingPositive(k, b.dilation);
    StageLength(b.conv1, b.inputs, x, b.dilation);
    Stage(b.conv1, b.inputs, x, b.dilation, b.padding)
  }

  /** MAIN: a block's output is the one signal that solves the equations of its layers. */
  lemma {:induction false} BlockIff(b: Block, k: nat, x: Signal, y: Signal)
    requires CausalBlock(b, k) && Shaped(x, b.inputs)
    ensures y == BlockForward(b, k, x) <==> exists half :: BlockEquations(b, x, half, y)
  {
    BlockSolves(b, k, x);
    forall half | BlockEquations(b, x, half, y)
      ensures y == BlockForward(b, k, x)
    {
      ConvLayerIsStage(b.conv1, b.inputs, x, b.dilation, half);
      SolvesAlike(b, x, half, y, BlockForward(b, k, x));
    }
  }

  lemma {:induction false} SolvesAlike(b: Block, x: Signal, half: Signal, y: Signal, z: Signal)
    requires BlockEquations(b, x, half, y) && BlockEquations(b, x, half, z)
    ensures y == z
  {
    hide Response, Skip, ConvLayer;
    forall t | 0 <= t < |x|
      ensures y[t] == z[t]
    {
    }
  }

  lemma {:induction false} BlockSolves(b: Block, k: nat, x: Signal)
    requires CausalBlock(b, k) && Shaped(x, b.inputs)
    ensures BlockEquations(b, x, Half(b, k, x), BlockForward(b, k, x))
  {
    var half, y := Half(b, k, x), BlockForward(b, k, x);
    StageIsConvLayer(b.conv1, b.inputs, x, b.dilation);
    StageIsConvLayer(b.conv2, b.outputs, half, b.dilation);
    hide Stage, Response, Skip, Residual;
    forall t | 0 <= t < |x|
      ensures |y[t]| == b.outputs
      ensures forall o :: 0 <= o < b.outputs ==>
        y[t][o] == Positive(Positive(Response(b.conv2, b.outputs, half, b.dilation, t, o)) + Skip(b, x, t, o))
    {
      assert FrameShape(y[t], b.outputs) && FrameShape(Net(b, k, x)[t], b.outputs);
      forall o | 0 <= o < b.outputs
        ensures y[t][o] == Positive(Positive(Response(b.conv2, b.outputs, half, b.dilation, t, o)) + Skip(b, x, t, o))
      {
        ResidualIsSkip(b, k, x, t, o);
      }
    }
  }

  /** The equations of TCNModel.forward: the signal behind every block, and the weighted sum
      of the last step. */
  predicate ModelEquations(m: Model, x: Signal, signals: seq<Signal>, halves: seq<Signal>, y: Frame) {
    && |signals| == |m.blocks| + 1 && |halves| == |m.blocks| && signals[0] == x
    && (forall i :: 0 <= i < |m.blocks| ==> BlockEquations(m.blocks[i], signals[i], halves[i], signals[i + 1]))
    && |y| == |m.bias|
    && forall o :: 0 <= o < |y| ==> y[o] == m.bias[o] + WeightedLast(m.weight, o, signals[|m.blocks|])
  }

  function WeightedLast(weight: seq<Frame>, o: nat, x: Signal): real {
    if o < |weight| && x != [] && |x[|x| - 1]| == |weight[o]| then
      SumUpTo(|weight[o]|, (i: nat) => if i < |weight[o]| then weight[o][i] * x[|x| - 1][i] else 0.0)
    else 0.0
  }

  lemma {:induction false} LastIsSum(weight: seq<Frame>, bias: Frame, x: Signal, o: nat)
    requires |weight| == |bias| && x != [] && Shaped(weight, |x[|x| - 1]|) && o < |bias|
    ensures Linear(weight, bias, x[|x| - 1])[o] == bias[o] + WeightedLast(weight, o, x)
  {
    var v := x[|x| - 1];
    assert FrameShape(weight[o], |v|);
    var f := (i: nat) => if i < |weight[o]| then weight[o][i] * x[|x| - 1][i] else 0.0;
    DotIsSum(weight[o], v, f);
    SumSame(|v|, f, (i: nat) => if i < |weight[o]| then weight[o][i] * x[|x| - 1][i] else 0.0);
  }

  /** The signal behind every block from block `i` on. */
  function Signals(blocks: seq<Block>, k: nat, i: nat, x: Signal): (signals: seq<Signal>)
    requires Stack(blocks, k) && i <= |blocks|
    requires i < |blocks| ==> Shaped(x, blocks[i].inputs)
    ensures |signals| == |blocks| - i + 1 && signals[0] == x
    decreases |blocks| - i
  {
    if i == |blocks| then [x] else [x] + Signals(blocks, k, i + 1, BlockForward(blocks[i], k, x))
  }

  function Halves(blocks: seq<Block>, k: nat, i: nat, x: Signal): (halves: seq<Signal>)
    requires Stack(blocks, k) && i <= |blocks|
    requires i < |blocks| ==> Shaped(x, blocks[i].inputs)
    ensures |halves| == |blocks| - i
    decreases |blocks| - i
  {
    if i == |blocks| then []
    else [Half(blocks[i], k, x)] + Halves(blocks, k, i + 1, BlockForward(blocks[i], k, x))
  }

  lemma {:induction false} SignalsSolve(blocks: seq<Block>, k: nat, i: nat, x: Signal)
    requires Stack(blocks, k) && i <= |blocks|
    requires i < |blocks| ==> Shaped(x, blocks[i].inputs)
    ensures var signals, halves := Signals(blocks, k, i, x), Halves(blocks, k, i, x);
            && signals[|blocks| - i] == RunFrom(blocks, k, i, x)
            && forall j :: i <= j < |blocks| ==>
                 BlockEquations(blocks[j], signals[j - i], halves[j - i], signals[j - i + 1])
    decreases |blocks| - i
  {
    hide BlockEquations, BlockForward, Half;
    if i < |blocks| {
      BlockSolves(blocks[i], k, x);
      SignalsSolve(blocks, k, i + 1, BlockForward(blocks[i], k, x));
    }
  }

  lemma {:induction false} SolvedSignal(m: Model, x: Signal, signals: seq<Signal>, halves: seq<Signal>, y: Frame,
                                        i: nat)
    requires Built(m) && |x| >= 1 && Shaped(x, m.blocks[0].inputs)
    requires ModelEquations(m, x, signals, halves, y) && i <= |m.blocks|
    ensures i < |m.blocks| ==> Shaped(signals[i], m.blocks[i].inputs)
    ensures RunFrom(m.blocks, m.kernel, 0, x) == RunFrom(m.blocks, m.kernel, i, signals[i])
  {
    hide BlockEquations, BlockForward;
    if i > 0 {
      SolvedSignal(m, x, signals, halves, y, i - 1);
      BlockIff(m.blocks[i - 1], m.kernel, signals[i - 1], signals[i]);
      assert BlockEquations(m.blocks[i - 1], signals[i - 1], halves[i - 1], signals[i]);
    }
  }

  lemma {:induction false} ForwardSolves(m: Model, x: Signal)
    requires Built(m) && |x| >= 1 && Shaped(x, m.blocks[0].inputs)
    ensures ModelEquations(m, x, Signals(m.blocks, m.kernel, 0, x), Halves(m.blocks, m.kernel, 0, x), Forward(m, x))
  {
    hide BlockEquations, RunFrom, WeightedLast, Linear, Signals, Halves;
    LastSolves(m, x);
    SignalsSolve(m.blocks, m.kernel, 0, x);
  }

  lemma {:induction false} LastSolves(m: Model, x: Signal)
    requires Built(m) && |x| >= 1 && Shaped(x, m.blocks[0].inputs)
    ensures var out := RunFrom(m.blocks, m.kernel, 0, x);
            forall o :: 0 <= o < |m.bias| ==> Forward(m, x)[o] == m.bias[o] + WeightedLast(m.weight, o, out)
  {
    hide RunFrom, WeightedLast, Linear;
    var out := RunFrom(m.blocks, m.kernel, 0, x);
    assert FrameShape(out[|out| - 1], m.blocks[|m.blocks| - 1].outputs);
    forall o | 0 <= o < |m.bias|
      ensures Linear(m.weight, m.bias, out[|out| - 1])[o] == m.bias[o] + WeightedLast(m.weight, o, out)
    {
      LastIsSum(m.weight, m.bias, out, o);
    }
  }

  lemma {:induction false} SolvedIsForward(m: Model, x: Signal, signals: seq<Signal>, halves: seq<Signal>, y: Frame)
    requires Built(m) && |x| >= 1 && Shaped(x, m.blocks[0].inputs)
    requires ModelEquations(m, x, signals, halves, y)
    ensures y == Forward(m, x)
  {
    hide BlockEquations, RunFrom, WeightedLast, Forward;
    var n := |m.blocks|;
    SolvedSignal(m, x, signals, halves, y, n);
    RunEnd(m.blocks, m.kernel, signals[n]);
    LastSolves(m, x);
    assert forall o :: 0 <= o < |y| ==> y[o] == Forward(m, x)[o];
  }

  /** MAIN: the model's output is the one frame that solves the equations of all its layers. */
  lemma {:induction false} ForwardIff(m: Model, x: Signal, y: Frame)
    requires Built(m) && |x| >= 1 && Shaped(x, m.blocks[0].inputs)
    ensures y == Forward(m, x) <==> exists signals, halves :: ModelEquations(m, x, signals, halves, y)
  {
    hide ModelEquations, Forward;
    ForwardSolves(m, x);
    forall signals, halves | ModelEquations(m, x, signals, halves, y)
      ensures y == Forward(m, x)
    {
      SolvedIsForward(m, x, signals, halves, y);
    }
  }

  lemma {:induction false} RunEnd(blocks: seq<Block>, k: nat, x: Signal)
    requires Stack(blocks, k)
    ensures RunFrom(blocks, k, |blocks|, x) == x
  {
  }

  // ---------------------------------------------------------------- the residual connection

  predicate AtLeastZero(x: Signal) {
    forall t, i :: 0 <= t < |x| && 0 <= i < |x[t]| ==> x[t][i] >= 0.0
  }

  /** All weights and biases are 0. */
  predicate Silent(c: Conv) {
    && (forall o :: 0 <= o < |c.bias| ==> c.bias[o] == 0.0)
    && forall j, o, i :: 0 <= j < |c.taps| && 0 <= o < |c.taps[j]| && 0 <= i < |c.taps[j][o]| ==> c.taps[j][o][i] == 0.0
  }

  lemma {:induction false} ZeroSum(n: nat, f: nat -> real)
    requires forall i: nat :: i < n ==> f(i) == 0.0
    ensures SumUpTo(n, f) == 0.0
  {
    if n > 0 {
      ZeroSum(n - 1, f);
    }
  }

  lemma {:induction false} SilentResponse(c: Conv, inputs: nat, x: Signal, dilation: nat, t: nat, o: nat)
    requires Silent(c) && o < |c.bias|
    ensures Response(c, inputs, x, dilation, t, o) == 0.0
  {
    forall j: nat | j < |c.taps|
      ensures TapShare(c, inputs, x, dilation, t, o, j) == 0.0
    {
      ZeroSum(inputs, (i: nat) => WeightAt(c, o, j, i) * Earlier(x, i, t, StepsBack(|c.taps|, j, dilation)));
    }
    ZeroSum(|c.taps|, (j: nat) => TapShare(c, inputs, x, dilation, t, o, j));
  }

  /** MAIN: the input comes back in behind a block's convolutions: a block whose second
      convolution is silent returns a non-negative input unchanged, and through a 1x1
      convolution the positive part of that convolution. */
  lemma {:induction false} SilentBlock(b: Block, k: nat, x: Signal)
    requires CausalBlock(b, k) && Shaped(x, b.inputs) && Silent(b.conv2)
    ensures b.downsample.None? && AtLeastZero(x) ==> BlockForward(b, k, x) == x
    ensures b.downsample.Some? ==> forall t :: 0 <= t < |x| ==>
              BlockForward(b, k, x)[t] == ReluFrame(ConvFrame(b.downsample.value, b.inputs, x, t, 1))
  {
    var y := BlockForward(b, k, x);
    BlockSolves(b, k, x);
    forall t, o | 0 <= t < |x| && 0 <= o < b.outputs
      ensures FrameShape(y[t], b.outputs) && y[t][o] == Positive(Skip(b, x, t, o))
    {
      SilentResponse(b.conv2, b.outputs, Half(b, k, x), b.dilation, t, o);
    }
    hide BlockForward, Half, Response;
    forall t | 0 <= t < |x|
      ensures b.downsample.None? && AtLeastZero(x) ==> y[t] == x[t]
      ensures b.downsample.Some? ==> y[t] == ReluFrame(ConvFrame(b.downsample.value, b.inputs, x, t, 1))
    {
      assert FrameShape(x[t], b.inputs) && FrameShape(y[t], b.outputs);
      if b.downsample.Some? {
        forall o | 0 <= o < b.outputs
          ensures ConvFrame(b.downsample.value, b.inputs, x, t, 1)[o] == Skip(b, x, t, o)
        {
          FrameIsResponse(b.downsample.value, b.inputs, x, 1, t, o);
        }
      }
    }
  }

  /** Where nothing comes back in, the block is its two convolutions. */
  lemma {:induction false} NoResidual(b: Block, k: nat, x: Signal)
    requires CausalBlock(b, k) && Shaped(x, b.inputs)
    requires forall t, o :: 0 <= t < |x| && 0 <= o < b.outputs ==> Residual(b, k, x)[t][o] == 0.0
    ensures BlockForward(b, k, x) == Net(b, k, x)
  {
    var y, net := BlockForward(b, k, x), Net(b, k, x);
    BlockSolves(b, k, x);
    StageIsConvLayer(b.conv2, b.outputs, Half(b, k, x), b.dilation);
    hide BlockForward, Half, Response, Residual, Stage, Skip;
    forall t | 0 <= t < |x|
      ensures y[t] == net[t]
    {
      assert FrameShape(y[t], b.outputs) && FrameShape(net[t], b.outputs);
      forall o | 0 <= o < b.outputs
        ensures y[t][o] == net[t][o]
      {
        ResidualIsSkip(b, k, x, t, o);
      }
    }
  }

  // ---------------------------------------------------------------- locality of one layer

  /** `y` is `x` without its first `shift` steps, as far as steps from `since` on can tell. */
  predicate Agree(x: Signal, y: Signal, shift: nat, since: nat) {
    && |x| == |y| + shift
    && forall t :: since <= t < |y| ==> y[t] == x[t + shift]
  }

  lemma {:induction false} SameTaps(c: Conv, inputs: nat, x: Signal, sx: int, y: Signal, sy: int,
                                    dilation: nat, o: nat, j: nat)
    requires ConvShaped(c, inputs, |c.bias|, |c.taps|) && Shaped(x, inputs) && Shaped(y, inputs)
    requires o < |c.bias| && j <= |c.taps|
    requires forall i :: j <= i < |c.taps| ==> Tap(x, inputs, sx, dilation, i) == Tap(y, inputs, sy, dilation, i)
    ensures TapSum(c, inputs, x, sx, dilation, o, j) == TapSum(c, inputs, y, sy, dilation, o, j)
    decreases |c.taps| - j
  {
    if j < |c.taps| {
      SameTaps(c, inputs, x, sx, y, sy, dilation, o, j + 1);
    }
  }

  lemma {:induction false} SameConvFrame(c: Conv, inputs: nat, x: Signal, sx: int, y: Signal, sy: int, dilation: nat)
    requires ConvShaped(c, inputs, |c.bias|, |c.taps|) && Shaped(x, inputs) && Shaped(y, inputs)
    requires forall i :: 0 <= i < |c.taps| ==> Tap(x, inputs, sx, dilation, i) == Tap(y, inputs, sy, dilation, i)
    ensures ConvFrame(c, inputs, x, sx, dilation) == ConvFrame(c, inputs, y, sy, dilation)
  {
    forall o | 0 <= o < |c.bias|
      ensures TapSum(c, inputs, x, sx, dilation, o, 0) == TapSum(c, inputs, y, sy, dilation, o, 0)
    {
      SameTaps(c, inputs, x, sx, y, sy, dilation, o, 0);
    }
  }

  /** A tap of a causal stage reaches back by at most the padding and never ahead. */
  lemma {:induction false} TapReach(j: nat, k: nat, dilation: nat)
    requires j < k
    ensures 0 <= j * dilation <= (k - 1) * dilation
  {
    assert (k - 1) * dilation == j * dilation + (k - 1 - j) * dilation;
  }

  lemma {:induction false} StageAt(c: Conv, inputs: nat, x: Signal, dilation: nat, t: nat)
    requires ConvShaped(c, inputs, |c.bias|, |c.taps|) && Shaped(x, inputs)
    requires |c.taps| >= 2 && dilation >= 1 && t < |x|
    ensures var padding := (|c.taps| - 1) * dilation;
            var y := Stage(c, inputs, x, dilation, padding);
            |y| == |x| && y[t] == ReluFrame(ConvFrame(c, inputs, x, t - padding, dilation))
  {
    PaddingPositive(|c.taps|, dilation);
    StageLength(c, inputs, x, dilation);
  }

  lemma {:induction false} StageAgree(c: Conv, inputs: nat, x: Signal, y: Signal, shift: nat, since: nat, dilation: nat)
    requires ConvShaped(c, inputs, |c.bias|, |c.taps|) && Shaped(x, inputs) && Shaped(y, inputs)
    requires |c.taps| >= 2 && dilation >= 1 && Agree(x, y, shift, since)
    ensures var padding := (|c.taps| - 1) * dilation;
            Agree(Stage(c, inputs, x, dilation, padding), Stage(c, inputs, y, dilation, padding), shift,
                  since + padding)
  {
    var padding := (|c.taps| - 1) * dilation;
    PaddingPositive(|c.taps|, dilation);
    StageLength(c, inputs, x, dilation);
    StageLength(c, inputs, y, dilation);
    forall t | since + padding <= t < |y|
      ensures Stage(c, inputs, y, dilation, padding)[t] == Stage(c, inputs, x, dilation, padding)[t + shift]
    {
      var sx, sy := t + shift - padding, t - padding;
      forall j | 0 <= j < |c.taps|
        ensures Tap(x, inputs, sx, dilation, j) == Tap(y, inputs, sy, dilation, j)
      {
        TapReach(j, |c.taps|, dilation);
      }
      SameConvFrame(c, inputs, x, sx, y, sy, dilation);
      StageAt(c, inputs, x, dilation, t + shift);
      StageAt(c, inputs, y, dilation, t);
    }
  }

  lemma {:induction false} ResidualAgree(b: Block, k: nat, x: Signal, y: Signal, shift: nat, since: nat)
    requires CausalBlock(b, k) && Shaped(x, b.inputs) && Shaped(y, b.inputs)
    requires Agree(x, y, shift, since)
    ensures Agree(Residual(b, k, x), Residual(b, k, y), shift, since)
  {
    if b.downsample.Some? {
      var c := b.downsample.value;
      forall t | since <= t < |y|
        ensures ConvFrame(c, b.inputs, y, t, 1) == ConvFrame(c, b.inputs, x, t + shift, 1)
      {
        assert Tap(x, b.inputs, t + shift, 1, 0) == Tap(y, b.inputs, t, 1, 0);
        SameConvFrame(c, b.inputs, x, t + shift, y, t, 1);
      }
    }
  }

  lemma {:induction false} NetAgree(b: Block, k: nat, x: Signal, y: Signal, shift: nat, since: nat)
    requires CausalBlock(b, k) && Shaped(x, b.inputs) && Shaped(y, b.inputs)
    requires Agree(x, y, shift, since)
    ensures Agree(Net(b, k, x), Net(b, k, y), shift, since + 2 * b.padding)
  {
    StageAgree(b.conv1, b.inputs, x, y, shift, since, b.dilation);
    StageAgree(b.conv2, b.outputs, Stage(b.conv1, b.inputs, x, b.dilation, b.padding),
               Stage(b.conv1, b.inputs, y, b.dilation, b.padding), shift, since + b.padding, b.dilation);
  }

  lemma {:induction false} MergeAgree(out: Signal, res: Signal, out': Signal, res': Signal, channels: nat,
                                      shift: nat, since: nat)
    requires |out| == |res| && Shaped(out, channels) && Shaped(res, channels)
    requires |out'| == |res'| && Shaped(out', channels) && Shaped(res', channels)
    requires Agree(out, out', shift, since) && Agree(res, res', shift, since)
    ensures Agree(Merge(out, res, channels), Merge(out', res', channels), shift, since)
  {
  }

  lemma {:induction false} Later(x: Signal, y: Signal, shift: nat, since: nat, later: nat)
    requires Agree(x, y, shift, since) && since <= later
    ensures Agree(x, y, shift, later)
  {
  }

  /** One block spoils the first 2*padding steps of a shortened history and no more. */
  lemma {:induction false} BlockAgree(b: Block, k: nat, x: Signal, y: Signal, shift: nat, since: nat)
    requires CausalBlock(b, k) && Shaped(x, b.inputs) && Shaped(y, b.inputs)
    requires Agree(x, y, shift, since)
    ensures Agree(BlockForward(b, k, x), BlockForward(b, k, y), shift, since + 2 * b.padding)
  {
    NetAgree(b, k, x, y, shift, since);
    ResidualAgree(b, k, x, y, shift, since);
    Later(Residual(b, k, x), Residual(b, k, y), shift, since, since + 2 * b.padding);
    MergeAgree(Net(b, k, x), Residual(b, k, x), Net(b, k, y), Residual(b, k, y), b.outputs,
               shift, since + 2 * b.padding);
  }

  /** The steps spoiled by blocks `i` and later together. */
  function HaloFrom(blocks: seq<Block>, i: nat): nat
    requires i <= |blocks|
    decreases |blocks| - i
  {
    if i == |blocks| then 0 else 2 * blocks[i].padding + HaloFrom(blocks, i + 1)
  }

  lemma {:induction false} RunAgree(blocks: seq<Block>, k: nat, i: nat, x: Signal, y: Signal, shift: nat, since: nat)
    requires Stack(blocks, k) && i <= |blocks|
    requires i < |blocks| ==> Shaped(x, blocks[i].inputs) && Shaped(y, blocks[i].inputs)
    requires Agree(x, y, shift, since)
    ensures Agree(RunFrom(blocks, k, i, x), RunFrom(blocks, k, i, y), shift, since + HaloFrom(blocks, i))
    decreases |blocks| - i
  {
    if i < |blocks| {
      BlockAgree(blocks[i], k, x, y, shift, since);
      RunAgree(blocks, k, i + 1, BlockForward(blocks[i], k, x), BlockForward(blocks[i], k, y),
               shift, since + 2 * blocks[i].padding);
    }
  }

  /** R = 2(k-1)(2^L - 1), the number of earlier steps the last output looks at. */
  function Reach(k: nat, levels: nat): (r: nat)
    requires k >= 1
  {
    2 * (k - 1) * (Pow2(levels) - 1)
  }

  lemma {:induction false} Regroup(k1: int, p: int, q: int)
    ensures 2 * (k1 * q) + 2 * k1 * (p - 2 * q) == 2 * k1 * (p - q)
  {
  }

  lemma {:induction false} HaloClosedForm(m: Model, i: nat)
    requires Built(m) && i <= |m.blocks|
    ensures HaloFrom(m.blocks, i) == 2 * (m.kernel - 1) * (Pow2(|m.blocks|) - Pow2(i))
    decreases |m.blocks| - i
  {
    if i < |m.blocks| {
      HaloClosedForm(m, i + 1);
      assert CausalBlock(m.blocks[i], m.kernel) && Pow2(i + 1) == 2 * Pow2(i);
      hide CausalBlock, Stack, Pow2;
      Regroup(m.kernel - 1, Pow2(|m.blocks|), Pow2(i));
    }
  }

  lemma {:induction false} HaloIsReach(m: Model)
    requires Built(m)
    ensures HaloFrom(m.blocks, 0) == Reach(m.kernel, |m.blocks|)
  {
    HaloClosedForm(m, 0);
  }

  lemma {:induction false} HaloSuffices(blocks: seq<Block>, k: nat, x: Signal, halo: nat)
    requires Stack(blocks, k) && |blocks| >= 1 && Shaped(x, blocks[0].inputs)
    requires halo == HaloFrom(blocks, 0) && |x| > halo
    ensures RunFrom(blocks, k, 0, x)[|x| - 1] == RunFrom(blocks, k, 0, x[|x| - halo - 1..])[halo]
  {
    hide RunFrom;
    var shift := |x| - halo - 1;
    var y := x[shift..];
    RunAgree(blocks, k, 0, x, y, shift, 0);
    var out, out' := RunFrom(blocks, k, 0, x), RunFrom(blocks, k, 0, y);
    assert Agree(out, out', shift, halo);
    assert out'[halo] == out[halo + shift];
  }

  lemma {:induction false} HaloReadout(m: Model, x: Signal, halo: nat)
    requires Built(m) && Shaped(x, m.blocks[0].inputs)
    requires halo == HaloFrom(m.blocks, 0) && |x| > halo
    ensures Forward(m, x) == Forward(m, x[|x| - halo - 1..])
  {
    HaloSuffices(m.blocks, m.kernel, x, halo);
    var y := x[|x| - halo - 1..];
    assert |y| - 1 == halo;
  }

  /** MAIN: with at least R+1 steps of history, the model's output is its output on the last
      R+1 steps alone, whatever the weights and despite the zero padding in every layer. */
  lemma {:induction false} ReceptiveField(m: Model, x: Signal)
    requires Built(m) && Shaped(x, m.blocks[0].inputs)
    requires |x| > Reach(m.kernel, |m.blocks|)
    ensures Forward(m, x) == Forward(m, x[|x| - Reach(m.kernel, |m.blocks|) - 1..])
  {
    hide Forward, HaloFrom, Reach;
    HaloIsReach(m);
    HaloReadout(m, x, HaloFrom(m.blocks, 0));
  }

  // ---------------------------------------------------------------- causality

  lemma {:induction false} StagePrefix(c: Conv, inputs: nat, x: Signal, n: nat, dilation: nat)
    requires ConvShaped(c, inputs, |c.bias|, |c.taps|) && Shaped(x, inputs)
    requires |c.taps| >= 2 && dilation >= 1 && n <= |x|
    ensures var padding := (|c.taps| - 1) * dilation;
            |Stage(c, inputs, x, dilation, padding)| == |x| &&
            Stage(c, inputs, x[..n], dilation, padding) == Stage(c, inputs, x, dilation, padding)[..n]
  {
    var padding := (|c.taps| - 1) * dilation;
    PaddingPositive(|c.taps|, dilation);
    StageLength(c, inputs, x, dilation);
    StageLength(c, inputs, x[..n], dilation);
    forall t | 0 <= t < n
      ensures Stage(c, inputs, x[..n], dilation, padding)[t] == Stage(c, inputs, x, dilation, padding)[t]
    {
      var start := t - padding;
      forall j | 0 <= j < |c.taps|
        ensures Tap(x, inputs, start, dilation, j) == Tap(x[..n], inputs, start, dilation, j)
      {
        TapReach(j, |c.taps|, dilation);
      }
      SameConvFrame(c, inputs, x, start, x[..n], start, dilation);
      StageAt(c, inputs, x, dilation, t);
      StageAt(c, inputs, x[..n], dilation, t);
    }
  }

  lemma {:induction false} BlockPrefix(b: Block, k: nat, x: Signal, n: nat)
    requires CausalBlock(b, k) && Shaped(x, b.inputs) && n <= |x|
    ensures BlockForward(b, k, x[..n]) == BlockForward(b, k, x)[..n]
  {
    StagePrefix(b.conv1, b.inputs, x, n, b.dilation);
    StagePrefix(b.conv2, b.outputs, Stage(b.conv1, b.inputs, x, b.dilation, b.padding), n, b.dilation);
    forall t | 0 <= t < n
      ensures Residual(b, k, x[..n])[t] == Residual(b, k, x)[t]
    {
      if b.downsample.Some? {
        assert Tap(x, b.inputs, t, 1, 0) == Tap(x[..n], b.inputs, t, 1, 0);
        SameConvFrame(b.downsample.value, b.inputs, x, t, x[..n], t, 1);
      }
    }
  }

  /** MAIN: the stack is causal: running it on a prefix gives that prefix of the outputs. */
  lemma {:induction false} Causal(blocks: seq<Block>, k: nat, i: nat, x: Signal, n: nat)
    requires Stack(blocks, k) && i <= |blocks|
    requires i < |blocks| ==> Shaped(x, blocks[i].inputs)
    requires n <= |x|
    ensures RunFrom(blocks, k, i, x[..n]) == RunFrom(blocks, k, i, x)[..n]
    decreases |blocks| - i
  {
    if i < |blocks| {
      BlockPrefix(blocks[i], k, x, n);
      Causal(blocks, k, i + 1, BlockForward(blocks[i], k, x), n);
    }
  }

  /** Both facts together: the network's output at every step t >= R depends on the window of
      R+1 steps that ends at t, and on nothing before or after it. */
  lemma {:induction false} WindowOnly(m: Model, x: Signal, t: nat, reach: nat)
    requires Built(m) && Shaped(x, m.blocks[0].inputs)
    requires reach == Reach(m.kernel, |m.blocks|) && reach <= t < |x|
    ensures RunFrom(m.blocks, m.kernel, 0, x)[t] == RunFrom(m.blocks, m.kernel, 0, x[t - reach..t + 1])[reach]
  {
    HaloIsReach(m);
    Causal(m.blocks, m.kernel, 0, x, t + 1);
    assert x[..t + 1][t - reach..] == x[t - reach..t + 1];
    HaloSuffices(m.blocks, m.kernel, x[..t + 1], reach);
  }

  // ---------------------------------------------------------------- the reach is exact

  function OnesConv(k: nat): Conv {
    Conv(seq(k, _ => [[1.0]]), [0.0])
  }

  function OnesBlock(k: nat, dilation: nat): (b: Block)
    requires k >= 2 && dilation >= 1
    ensures CausalBlock(b, k)
  {
    Block(1, 1, dilation, (k - 1) * dilation, OnesConv(k), OnesConv(k), None)
  }

  function OnesBlocks(k: nat, levels: nat): (blocks: seq<Block>)
    requires k >= 2
    ensures |blocks| == levels && OnesStack(blocks, k)
    ensures forall i :: 0 <= i < levels ==> blocks[i].dilation == Pow2(i)
    ensures levels >= 1 ==> blocks[0].inputs == 1 && blocks[levels - 1].outputs == 1
  {
    if levels == 0 then [] else OnesBlocks(k, levels - 1) + [OnesBlock(k, Pow2(levels - 1))]
  }

  /** One channel, every weight 1, every bias 0. */
  function OnesModel(k: nat, levels: nat): (m: Model)
    requires k >= 2 && levels >= 1
    ensures Built(m) && m.kernel == k && |m.blocks| == levels && m.blocks[0].inputs == 1
  {
    Model(k, OnesBlocks(k, levels), [[1.0]], [0.0])
  }

  predicate NonNegative(x: Signal) {
    Shaped(x, 1) && forall t :: 0 <= t < |x| ==> x[t][0] >= 0.0
  }

  lemma {:induction false} OnesTapSum(k: nat, x: Signal, start: int, dilation: nat, j: nat)
    requires k >= 2 && NonNegative(x) && j <= k
    ensures var s := TapSum(OnesConv(k), 1, x, start, dilation, 0, j);
            s >= 0.0 && (j < k ==> s >= Tap(x, 1, start, dilation, j)[0])
    ensures Zero(x) ==> TapSum(OnesConv(k), 1, x, start, dilation, 0, j) == 0.0
    decreases k - j
  {
    if j < k {
      OnesTapSum(k, x, start, dilation, j + 1);
      var v := Tap(x, 1, start, dilation, j);
      assert Dot([1.0], v) == v[0] + Dot([], v[1..]);
    }
  }

  lemma {:induction false} OnesStage(k: nat, x: Signal, dilation: nat)
    requires k >= 2 && dilation >= 1 && NonNegative(x)
    ensures var padding := (k - 1) * dilation;
            var y := Stage(OnesConv(k), 1, x, dilation, padding);
            Echoes(x, y, padding) && (Zero(x) ==> Zero(y))
  {
    var padding := (k - 1) * dilation;
    var y := Stage(OnesConv(k), 1, x, dilation, padding);
    PaddingPositive(k, dilation);
    StageLength(OnesConv(k), 1, x, dilation);
    hide Stage;
    forall t | 0 <= t < |x|
      ensures y[t][0] >= 0.0 && (t >= padding ==> y[t][0] >= x[t - padding][0])
      ensures Zero(x) ==> y[t][0] == 0.0
    {
      StageAt(OnesConv(k), 1, x, dilation, t);
      OnesTapSum(k, x, t - padding, dilation, 0);
      assert Tap(x, 1, t - padding, dilation, 0) == Padded(x, 1, t - padding);
    }
  }

  lemma {:induction false} OnesBlockForward(k: nat, x: Signal, dilation: nat)
    requires k >= 2 && dilation >= 1 && NonNegative(x)
    ensures var b := OnesBlock(k, dilation);
            var y := BlockForward(b, k, x);
            Echoes(x, y, 2 * b.padding) && (Zero(x) ==> Zero(y))
  {
    OnesNet(k, x, dilation);
    var b := OnesBlock(k, dilation);
    EchoMerge(x, Net(b, k, x), 2 * b.padding);
  }

  lemma {:induction false} OnesNet(k: nat, x: Signal, dilation: nat)
    requires k >= 2 && dilation >= 1 && NonNegative(x)
    ensures var b := OnesBlock(k, dilation);
            var y := Net(b, k, x);
            Echoes(x, y, 2 * b.padding) && (Zero(x) ==> Zero(y))
  {
    hide Stage;
    var padding := (k - 1) * dilation;
    var half := Stage(OnesConv(k), 1, x, dilation, padding);
    OnesStage(k, x, dilation);
    OnesStage(k, half, dilation);
    EchoTwice(x, half, Stage(OnesConv(k), 1, half, dilation, padding), padding, padding);
  }

  lemma {:induction false} EchoMerge(x: Signal, out: Signal, delay: nat)
    requires Echoes(x, out, delay)
    ensures Echoes(x, Merge(out, x, 1), delay) && (Zero(x) && Zero(out) ==> Zero(Merge(out, x, 1)))
  {
    var y := Merge(out, x, 1);
    forall t | 0 <= t < |x|
      ensures y[t] == [out[t][0] + x[t][0]]
    {
      assert AddFrame(out[t], x[t]) == [out[t][0] + x[t][0]];
    }
  }

  predicate Zero(x: Signal) {
    Shaped(x, 1) && forall t :: 0 <= t < |x| ==> x[t][0] == 0.0
  }

  /** `y` is at least `x` delayed by `delay` steps. */
  predicate Echoes(x: Signal, y: Signal, delay: nat) {
    && NonNegative(x) && NonNegative(y) && |x| == |y|
    && forall t :: delay <= t < |x| ==> y[t][0] >= x[t - delay][0]
  }

  predicate OnesStack(blocks: seq<Block>, k: nat) {
    && k >= 2
    && (forall i :: 0 <= i < |blocks| ==> blocks[i].dilation >= 1 && blocks[i] == OnesBlock(k, blocks[i].dilation))
    && Stack(blocks, k)
  }

  lemma {:induction false} EchoRun(blocks: seq<Block>, k: nat, i: nat, x: Signal)
    requires OnesStack(blocks, k) && i <= |blocks| && NonNegative(x)
    ensures Echoes(x, RunFrom(blocks, k, i, x), HaloFrom(blocks, i))
    ensures Zero(x) ==> Zero(RunFrom(blocks, k, i, x))
    decreases |blocks| - i
  {
    hide BlockForward;
    if i < |blocks| {
      var b, halo := blocks[i], HaloFrom(blocks, i + 1);
      assert b == OnesBlock(k, b.dilation);
      OnesBlockForward(k, x, b.dilation);
      var z := BlockForward(b, k, x);
      assert Echoes(x, z, 2 * b.padding);
      EchoRun(blocks, k, i + 1, z);
      EchoTwice(x, z, RunFrom(blocks, k, i + 1, z), 2 * b.padding, halo);
    }
  }

  lemma {:induction false} EchoTwice(x: Signal, y: Signal, z: Signal, d: nat, e: nat)
    requires Echoes(x, y, d) && Echoes(y, z, e)
    ensures Echoes(x, z, d + e)
  {
    forall t | d + e <= t < |x|
      ensures z[t][0] >= x[t - (d + e)][0]
    {
      var u := t - e;
      assert z[t][0] >= y[u][0] >= x[u - d][0];
    }
  }

  /** A signal of R+1 steps that is zero except for its first step. */
  function Impulse(r: nat, first: real): (x: Signal)
    ensures |x| == r + 1 && Shaped(x, 1)
  {
    seq(r + 1, t => [if t == 0 then first else 0.0])
  }

  lemma {:induction false} Readout(m: Model, x: Signal, last: Frame)
    requires Built(m) && m.weight == [[1.0]] && m.bias == [0.0] && m.blocks[0].inputs == 1
    requires |x| >= 1 && Shaped(x, 1) && last == RunFrom(m.blocks, m.kernel, 0, x)[|x| - 1]
    ensures |last| == 1 && Forward(m, x) == [last[0]]
  {
    hide RunFrom;
    assert |m.weight[0]| == 1;
    assert Dot([1.0], last) == last[0] + Dot([], last[1..]);
  }

  /** MAIN: R is exact. For every kernel and depth some weights tell apart two histories of
      R+1 steps that differ in the oldest step only. */
  lemma {:induction false} OldestStepMatters(k: nat, levels: nat, reach: nat)
    requires k >= 2 && levels >= 1 && reach == Reach(k, levels)
    ensures Impulse(reach, 1.0)[1..] == Impulse(reach, 0.0)[1..]
    ensures Forward(OnesModel(k, levels), Impulse(reach, 1.0)) != Forward(OnesModel(k, levels), Impulse(reach, 0.0))
  {
    hide RunFrom, Linear;
    var m := OnesModel(k, levels);
    HaloIsReach(m);
    OnesTell(m, Impulse(reach, 1.0), Impulse(reach, 0.0), reach);
  }

  lemma {:induction false} OnesTell(m: Model, x: Signal, y: Signal, halo: nat)
    requires Built(m) && OnesStack(m.blocks, m.kernel) && m.weight == [[1.0]] && m.bias == [0.0]
    requires halo == HaloFrom(m.blocks, 0) && |x| == |y| == halo + 1
    requires NonNegative(x) && x[0][0] > 0.0 && NonNegative(y) && Zero(y)
    ensures Forward(m, x) != Forward(m, y)
  {
    hide RunFrom;
    EchoRun(m.blocks, m.kernel, 0, x);
    EchoRun(m.blocks, m.kernel, 0, y);
    var u, v := RunFrom(m.blocks, m.kernel, 0, x)[halo], RunFrom(m.blocks, m.kernel, 0, y)[halo];
    assert u[0] >= x[0][0] && v[0] == 0.0;
    Readout(m, x, u);
    Readout(m, y, v);
  }
}
