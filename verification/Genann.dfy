/** The neural network of genann.c: a feed-forward pass and a backpropagation step over flat buffers.
    Weights and signals are real numbers and the activation functions are arbitrary. */
module Genanns {
  import opened Layouts

  /** A network: its topology and its activation functions; linear tells that the output activation is the linear
      one. */
  datatype Net = Net(shape: Topology, hiddenAct: real -> real, outputAct: real -> real, linear: bool)

  // ---------------------------------------------------------------- the layered network

  /** What a neuron reads from its k-th input: the bias is -1. */
  function Input(xs: seq<real>, k: nat): real
    requires k <= |xs|
  {
    if k == 0 then -1.0 else xs[k - 1]
  }

  /** The weighted sum over the first k inputs of a neuron whose weights start at w[start]. */
  function WeightedSum(w: seq<real>, start: nat, xs: seq<real>, k: nat): real
    requires k <= |xs| + 1 && start + k <= |w|
  {
    if k == 0 then 0.0 else WeightedSum(w, start, xs, k - 1) + w[start + k - 1] * Input(xs, k - 1)
  }

  predicate Fits(net: Net, w: seq<real>) {
    net.shape.Accepted() && |w| == net.shape.WeightsEnd()
  }

  function Activation(net: Net, l: nat): real -> real {
    if l == net.shape.hiddenLayers then net.outputAct else net.hiddenAct
  }

  function Neuron(net: Net, w: seq<real>, l: nat, j: nat, xs: seq<real>): real
    requires Fits(net, w) && l <= net.shape.hiddenLayers && j < net.shape.Size(l) && |xs| == net.shape.Fan(l)
  {
    net.shape.SlotInRange(l, j);
    Activation(net, l)(WeightedSum(w, net.shape.Slot(l, j), xs, |xs| + 1))
  }

  function LayerOutput(net: Net, w: seq<real>, l: nat, xs: seq<real>): (ys: seq<real>)
    requires Fits(net, w) && l <= net.shape.hiddenLayers && |xs| == net.shape.Fan(l)
    ensures |ys| == net.shape.Size(l)
  {
    seq(net.shape.Size(l), j requires 0 <= j < net.shape.Size(l) => Neuron(net, w, l, j, xs))
  }

  /** The signals that enter layer l. */
  function Signal(net: Net, w: seq<real>, input: seq<real>, l: nat): (xs: seq<real>)
    requires Fits(net, w) && l <= net.shape.hiddenLayers && |input| == net.shape.inputs
    ensures |xs| == net.shape.Fan(l)
  {
    if l == 0 then input else LayerOutput(net, w, l - 1, Signal(net, w, input, l - 1))
  }

  /** The answer of the network. */
  function Answer(net: Net, w: seq<real>, input: seq<real>): (ys: seq<real>)
    requires Fits(net, w) && |input| == net.shape.inputs
    ensures |ys| == net.shape.outputs
  {
    LayerOutput(net, w, net.shape.hiddenLayers, Signal(net, w, input, net.shape.hiddenLayers))
  }

  // ---------------------------------------------------------------- backpropagation

  function OutputDelta(net: Net, out: real, desired: real): real {
    if net.linear then desired - out else (desired - out) * out * (1.0 - out)
  }

  /** The deltas of the next layer's first k neurons, weighted by their connections from neuron j. */
  function Backward(net: Net, w: seq<real>, l: nat, j: nat, next: seq<real>, k: nat): real
    requires Fits(net, w) && l < net.shape.hiddenLayers && j < net.shape.hidden
    requires |next| == net.shape.Size(l + 1) && k <= |next|
  {
    if k == 0 then 0.0
    else
      net.shape.SlotInRange(l + 1, k - 1);
      Backward(net, w, l, j, next, k - 1) + next[k - 1] * w[net.shape.Slot(l + 1, k - 1) + j + 1]
  }

  function OutputDeltas(net: Net, out: seq<real>, desired: seq<real>): (ds: seq<real>)
    requires |out| == |desired|
    ensures |ds| == |out|
  {
    seq(|out|, j requires 0 <= j < |out| => OutputDelta(net, out[j], desired[j]))
  }

  function HiddenDelta(net: Net, w: seq<real>, l: nat, next: seq<real>, out: seq<real>, j: nat): real
    requires Fits(net, w) && l < net.shape.hiddenLayers && |next| == net.shape.Size(l + 1)
    requires j < |out| == net.shape.hidden
  {
    out[j] * (1.0 - out[j]) * Backward(net, w, l, j, next, |next|)
  }

  function HiddenDeltas(net: Net, w: seq<real>, l: nat, next: seq<real>, out: seq<real>): (ds: seq<real>)
    requires Fits(net, w) && l < net.shape.hiddenLayers && |next| == net.shape.Size(l + 1) && |out| == net.shape.hidden
    ensures |ds| == net.shape.hidden
  {
    seq(net.shape.hidden, j requires 0 <= j < net.shape.hidden => HiddenDelta(net, w, l, next, out, j))
  }

  /** The deltas of layer l, all with respect to the same weights. */
  function Delta(net: Net, w: seq<real>, input: seq<real>, desired: seq<real>, l: nat): (ds: seq<real>)
    requires Fits(net, w) && l <= net.shape.hiddenLayers && |input| == net.shape.inputs
    requires |desired| == net.shape.outputs
    ensures |ds| == net.shape.Size(l)
    decreases net.shape.hiddenLayers - l
  {
    if l == net.shape.hiddenLayers then OutputDeltas(net, Answer(net, w, input), desired)
    else HiddenDeltas(net, w, l, Delta(net, w, input, desired, l + 1), Signal(net, w, input, l + 1))
  }

  ghost predicate DeltaPerLayer(net: Net, deltas: seq<seq<real>>) {
    && net.shape.Accepted()
    && |deltas| == net.shape.hiddenLayers + 1
    && forall l :: 0 <= l <= net.shape.hiddenLayers ==> |deltas[l]| == net.shape.Size(l)
  }

  /** One sequence per layer, as long as the layer has neurons or its neurons have inputs. */
  ghost predicate PerLayer(net: Net, signals: seq<seq<real>>, deltas: seq<seq<real>>) {
    && DeltaPerLayer(net, deltas)
    && |signals| == net.shape.hiddenLayers + 1
    && forall l :: 0 <= l <= net.shape.hiddenLayers ==> |signals[l]| == net.shape.Fan(l)
  }

  function Signals(net: Net, w: seq<real>, input: seq<real>): (signals: seq<seq<real>>)
    requires Fits(net, w) && |input| == net.shape.inputs
    ensures |signals| == net.shape.hiddenLayers + 1
  {
    seq(net.shape.hiddenLayers + 1, l requires 0 <= l <= net.shape.hiddenLayers => Signal(net, w, input, l))
  }

  function Deltas(net: Net, w: seq<real>, input: seq<real>, desired: seq<real>): (deltas: seq<seq<real>>)
    requires Fits(net, w) && |input| == net.shape.inputs && |desired| == net.shape.outputs
    ensures |deltas| == net.shape.hiddenLayers + 1
    ensures PerLayer(net, Signals(net, w, input), deltas)
  {
    seq(net.shape.hiddenLayers + 1, l requires 0 <= l <= net.shape.hiddenLayers => Delta(net, w, input, desired, l))
  }

  /** How much one training step adds to the weight of input k of neuron j of layer l. */
  function Gradient(net: Net, signals: seq<seq<real>>, deltas: seq<seq<real>>, rate: real, l: nat, j: nat, k: nat): real
    requires PerLayer(net, signals, deltas) && l <= net.shape.hiddenLayers && j < net.shape.Size(l)
    requires k <= net.shape.Fan(l)
  {
    deltas[l][j] * rate * Input(signals[l], k)
  }

  // ---------------------------------------------------------------- what the buffers hold

  /** The output buffer holds the signals of layers 0 to h. */
  ghost predicate HoldsSignals(net: Net, w: seq<real>, input: seq<real>, out: seq<real>, h: nat)
    requires Fits(net, w) && h <= net.shape.hiddenLayers && |input| == net.shape.inputs
    requires |out| == net.shape.TotalNeurons()
  {
    forall l :: 0 <= l <= h ==> HoldsSignal(net, w, input, out, l)
  }

  ghost predicate HoldsSignal(net: Net, w: seq<real>, input: seq<real>, out: seq<real>, l: nat)
    requires Fits(net, w) && l <= net.shape.hiddenLayers && |input| == net.shape.inputs
    requires |out| == net.shape.TotalNeurons()
  {
    net.shape.OutputsInRange(l);
    out[net.shape.InputStart(l)..net.shape.OutputStart(l)] == Signal(net, w, input, l)
  }

  /** Writing behind the signals of layer l leaves them in place. */
  lemma KeepsSignal(net: Net, w: seq<real>, input: seq<real>, before: seq<real>, after: seq<real>, l: nat, c: nat)
    requires Fits(net, w) && l <= net.shape.hiddenLayers && |input| == net.shape.inputs
    requires |before| == |after| == net.shape.TotalNeurons() && HoldsSignal(net, w, input, before, l)
    requires net.shape.OutputStart(l) <= c <= |after| && after[..c] == before[..c]
    ensures HoldsSignal(net, w, input, after, l)
  {
    net.shape.OutputsInRange(l);
    PrefixSlice(before, after, c, net.shape.InputStart(l), net.shape.OutputStart(l));
  }

  lemma KeepsSignals(net: Net, w: seq<real>, input: seq<real>, before: seq<real>, after: seq<real>, h: nat)
    requires Fits(net, w) && h <= net.shape.hiddenLayers && |input| == net.shape.inputs
    requires |before| == |after| == net.shape.TotalNeurons() && HoldsSignals(net, w, input, before, h)
    requires 0 <= net.shape.OutputStart(h) <= |after|
    requires after[..net.shape.OutputStart(h)] == before[..net.shape.OutputStart(h)]
    ensures HoldsSignals(net, w, input, after, h)
  {
    forall l | 0 <= l <= h ensures HoldsSignal(net, w, input, after, l) {
      net.shape.LayersGrow(l, h);
      KeepsSignal(net, w, input, before, after, l, net.shape.OutputStart(h));
    }
  }

  lemma AddsSignal(net: Net, w: seq<real>, input: seq<real>, out: seq<real>, h: nat)
    requires Fits(net, w) && h < net.shape.hiddenLayers && |input| == net.shape.inputs
    requires |out| == net.shape.TotalNeurons()
    requires HoldsSignals(net, w, input, out, h)
    requires 0 <= net.shape.OutputStart(h) <= net.shape.OutputStart(h) + net.shape.Size(h) <= |out|
    requires out[net.shape.OutputStart(h)..net.shape.OutputStart(h) + net.shape.Size(h)]
              == LayerOutput(net, w, h, Signal(net, w, input, h))
    ensures HoldsSignals(net, w, input, out, h + 1)
  {
  }

  /** The delta buffer holds the deltas of layers from up to the output layer. */
  ghost predicate HoldsDeltas(net: Net, deltas: seq<seq<real>>, ds: seq<real>, from: nat)
    requires DeltaPerLayer(net, deltas) && |ds| == net.shape.TotalNeurons() - net.shape.inputs
  {
    forall l :: from <= l <= net.shape.hiddenLayers ==> HoldsDelta(net, deltas, ds, l)
  }

  ghost predicate HoldsDelta(net: Net, deltas: seq<seq<real>>, ds: seq<real>, l: nat)
    requires DeltaPerLayer(net, deltas) && |ds| == net.shape.TotalNeurons() - net.shape.inputs
    requires l <= net.shape.hiddenLayers
  {
    net.shape.OutputsInRange(l);
    ds[net.shape.DeltaStart(l)..net.shape.DeltaStart(l) + net.shape.Size(l)] == deltas[l]
  }

  /** Writing the deltas of layer h leaves those of the later layers in place. */
  lemma AddsDelta(net: Net, deltas: seq<seq<real>>, before: seq<real>, after: seq<real>, h: nat)
    requires DeltaPerLayer(net, deltas) && h < net.shape.hiddenLayers
    requires |before| == |after| == net.shape.TotalNeurons() - net.shape.inputs
    requires HoldsDeltas(net, deltas, before, h + 1) && HoldsDelta(net, deltas, after, h)
    requires 0 <= net.shape.DeltaStart(h + 1) <= |after|
    requires after[net.shape.DeltaStart(h + 1)..] == before[net.shape.DeltaStart(h + 1)..]
    ensures HoldsDeltas(net, deltas, after, h)
  {
    forall l | h < l <= net.shape.hiddenLayers ensures HoldsDelta(net, deltas, after, l) {
      assert HoldsDelta(net, deltas, before, l);
      net.shape.LayersGrow(h + 1, l);
      net.shape.OutputsInRange(l);
      SuffixSlice(before, after, net.shape.DeltaStart(h + 1), net.shape.DeltaStart(l),
          net.shape.DeltaStart(l) + net.shape.Size(l));
    }
  }

  lemma SuffixSlice(before: seq<real>, after: seq<real>, c: nat, a: nat, b: nat)
    requires c <= a <= b <= |after| == |before| && after[c..] == before[c..]
    ensures after[a..b] == before[a..b]
  {
    forall k | a <= k < b ensures after[k] == before[k] {
      assert after[c..][k - c] == before[c..][k - c];
    }
  }

  lemma PrefixSlice(before: seq<real>, after: seq<real>, c: nat, a: nat, b: nat)
    requires a <= b <= c <= |after| == |before| && after[..c] == before[..c]
    ensures after[a..b] == before[a..b]
  {
    assert after[a..b] == after[..c][a..b] && before[a..b] == before[..c][a..b];
  }

  /** The output buffer holds these signals, layer by layer. */
  ghost predicate SignalsReady(net: Net, out: seq<real>, signals: seq<seq<real>>) {
    forall l :: 0 <= l <= net.shape.hiddenLayers ==> SignalReady(net, out, signals, l)
  }

  ghost predicate SignalReady(net: Net, out: seq<real>, signals: seq<seq<real>>, l: nat) {
    && net.shape.Accepted() && l <= net.shape.hiddenLayers && l < |signals|
    && 0 <= net.shape.InputStart(l) <= net.shape.OutputStart(l) <= |out|
    && out[net.shape.InputStart(l)..net.shape.OutputStart(l)] == signals[l]
  }

  /** The deltas of every hidden layer come from those of the next layer, over the weights w. */
  ghost predicate Backpropagated(net: Net, w: seq<real>, signals: seq<seq<real>>, deltas: seq<seq<real>>)
    requires Fits(net, w) && PerLayer(net, signals, deltas)
  {
    forall h :: 0 <= h < net.shape.hiddenLayers ==> BackpropagatedAt(net, w, signals, deltas, h)
  }

  ghost predicate BackpropagatedAt(net: Net, w: seq<real>, signals: seq<seq<real>>, deltas: seq<seq<real>>, h: nat)
    requires Fits(net, w) && PerLayer(net, signals, deltas) && h < net.shape.hiddenLayers
  {
    deltas[h] == HiddenDeltas(net, w, h, deltas[h + 1], signals[h + 1])
  }

  // ---------------------------------------------------------------- the weights during training

  /** The weights of all layers after l, and of the first n neurons of layer l, have been raised once; the others
      not. */
  ghost predicate TrainedTo(net: Net, before: seq<real>, after: seq<real>, signals: seq<seq<real>>,
      deltas: seq<seq<real>>, rate: real, l: int, n: nat)
    requires Fits(net, before) && PerLayer(net, signals, deltas)
  {
    && |after| == |before|
    && forall m, j, k ::
        0 <= m <= net.shape.hiddenLayers && 0 <= j < net.shape.Size(m) && 0 <= k <= net.shape.Fan(m) ==>
         WeightTrained(net, before, after, signals, deltas, rate, l, n, m, j, k)
  }

  ghost predicate WeightTrained(net: Net, before: seq<real>, after: seq<real>, signals: seq<seq<real>>,
      deltas: seq<seq<real>>, rate: real, l: int, n: nat,
                                m: nat, j: nat, k: nat)
    requires Fits(net, before) && PerLayer(net, signals, deltas) && |after| == |before|
    requires m <= net.shape.hiddenLayers && j < net.shape.Size(m) && k <= net.shape.Fan(m)
  {
    net.shape.SlotInRange(m, j);
    after[net.shape.Slot(m, j) + k] == before[net.shape.Slot(m, j) + k]
      + if m > l || (m == l && j < n) then Gradient(net, signals, deltas, rate, m, j, k) else 0.0
  }

  /** Different neurons have different weights. */
  lemma SlotsApart(t: Topology, l: nat, j: nat, l': nat, j': nat, k: nat)
    requires t.Accepted() && l <= t.hiddenLayers && l' <= t.hiddenLayers && j < t.Size(l) && j' < t.Size(l')
    requires k <= t.Fan(l')
    requires l != l' || j != j'
    ensures !(t.Slot(l, j) <= t.Slot(l', j') + k <= t.Slot(l, j) + t.Fan(l))
  {
    var x := t.Slot(l', j') + k;
    if t.Slot(l, j) <= x <= t.Slot(l, j) + t.Fan(l) {
      t.ConnectionIsUnique(x, l, j, x - t.Slot(l, j), l', j', k);
    }
  }

  /** The weights of one neuron have been raised, and nothing else. */
  ghost predicate NeuronRaised(mid: seq<real>, after: seq<real>, start: int, xs: seq<real>, d: real, rate: real) {
    && |after| == |mid|
    && 0 <= start && start + |xs| < |after|
    && (forall k :: 0 <= k <= |xs| ==> after[start + k] == mid[start + k] + d * rate * Input(xs, k))
    && (forall x :: 0 <= x < |after| && !(start <= x <= start + |xs|) ==> after[x] == mid[x])
  }

  lemma NeuronTrained(net: Net, before: seq<real>, mid: seq<real>, after: seq<real>, signals: seq<seq<real>>,
      deltas: seq<seq<real>>, rate: real, l: nat, n: nat)
    requires Fits(net, before) && PerLayer(net, signals, deltas) && l <= net.shape.hiddenLayers && n < net.shape.Size(l)
    requires TrainedTo(net, before, mid, signals, deltas, rate, l, n)
    requires NeuronRaised(mid, after, net.shape.Slot(l, n), signals[l], deltas[l][n], rate)
    ensures TrainedTo(net, before, after, signals, deltas, rate, l, n + 1)
  {
    var next := n + 1;
    forall m, j, k | 0 <= m <= net.shape.hiddenLayers && 0 <= j < net.shape.Size(m) && 0 <= k <= net.shape.Fan(m)
      ensures WeightTrained(net, before, after, signals, deltas, rate, l, next, m, j, k)
    {
      assert WeightTrained(net, before, mid, signals, deltas, rate, l, n, m, j, k);
      OneWeightTrained(net, before, mid, after, signals, deltas, rate, l, n, m, j, k);
    }
  }

  lemma OneWeightTrained(net: Net, before: seq<real>, mid: seq<real>, after: seq<real>, signals: seq<seq<real>>,
      deltas: seq<seq<real>>, rate: real, l: nat, n: nat,
                         m: nat, j: nat, k: nat)
    requires Fits(net, before) && PerLayer(net, signals, deltas) && l <= net.shape.hiddenLayers && n < net.shape.Size(l)
    requires m <= net.shape.hiddenLayers && j < net.shape.Size(m) && k <= net.shape.Fan(m)
    requires |mid| == |before| && WeightTrained(net, before, mid, signals, deltas, rate, l, n, m, j, k)
    requires NeuronRaised(mid, after, net.shape.Slot(l, n), signals[l], deltas[l][n], rate)
    ensures WeightTrained(net, before, after, signals, deltas, rate, l, n + 1, m, j, k)
  {
    if m == l && j == n {
      SameNeuronTrained(net, before, mid, after, signals, deltas, rate, l, n, k);
    } else {
      net.shape.SlotInRange(m, j);
      SlotsApart(net.shape, l, n, m, j, k);
      OtherNeuronKept(mid, after, net.shape.Slot(l, n), signals[l], deltas[l][n], rate, net.shape.Slot(m, j) + k);
    }
  }

  lemma OtherNeuronKept(mid: seq<real>, after: seq<real>, start: int, xs: seq<real>, d: real, rate: real, x: nat)
    requires NeuronRaised(mid, after, start, xs, d, rate) && x < |after| && !(start <= x <= start + |xs|)
    ensures after[x] == mid[x]
  {
  }

  lemma SameNeuronTrained(net: Net, before: seq<real>, mid: seq<real>, after: seq<real>, signals: seq<seq<real>>,
      deltas: seq<seq<real>>, rate: real, l: nat, n: nat, k: nat)
    requires Fits(net, before) && PerLayer(net, signals, deltas) && l <= net.shape.hiddenLayers && n < net.shape.Size(l)
    requires k <= net.shape.Fan(l)
    requires |mid| == |before| && WeightTrained(net, before, mid, signals, deltas, rate, l, n, l, n, k)
    requires NeuronRaised(mid, after, net.shape.Slot(l, n), signals[l], deltas[l][n], rate)
    ensures WeightTrained(net, before, after, signals, deltas, rate, l, n + 1, l, n, k)
  {
  }

  lemma LayerTrained(net: Net, before: seq<real>, after: seq<real>, signals: seq<seq<real>>, deltas: seq<seq<real>>,
      rate: real, l: nat)
    requires Fits(net, before) && PerLayer(net, signals, deltas) && l <= net.shape.hiddenLayers
    requires TrainedTo(net, before, after, signals, deltas, rate, l, net.shape.Size(l))
    ensures TrainedTo(net, before, after, signals, deltas, rate, l - 1, 0)
  {
    var next := l - 1;
    forall m, j, k | 0 <= m <= net.shape.hiddenLayers && 0 <= j < net.shape.Size(m) && 0 <= k <= net.shape.Fan(m)
      ensures WeightTrained(net, before, after, signals, deltas, rate, next, 0, m, j, k)
    {
      assert WeightTrained(net, before, after, signals, deltas, rate, l, net.shape.Size(l), m, j, k);
    }
  }

  lemma NothingTrained(net: Net, w: seq<real>, signals: seq<seq<real>>, deltas: seq<seq<real>>, rate: real)
    requires Fits(net, w) && PerLayer(net, signals, deltas)
    ensures TrainedTo(net, w, w, signals, deltas, rate, net.shape.hiddenLayers, 0)
  {
  }

  /** The first n values of ys are in place from o on, and nothing else has changed. */
  ghost predicate Written(before: seq<real>, after: seq<real>, o: nat, ys: seq<real>, n: nat) {
    && n <= |ys|
    && o + |ys| <= |after| == |before|
    && (forall k :: 0 <= k < n ==> after[o + k] == ys[k])
    && (forall x :: 0 <= x < |after| && !(o <= x < o + n) ==> after[x] == before[x])
  }

  lemma WrittenSlices(before: seq<real>, after: seq<real>, o: nat, ys: seq<real>)
    requires Written(before, after, o, ys, |ys|)
    ensures after[..o] == before[..o] && after[o..o + |ys|] == ys && after[o + |ys|..] == before[o + |ys|..]
  {
  }

  class Genann {
    const net: Net
    const weight: array<real>
    const output: array<real>
    const delta: array<real>

    ghost predicate Valid()
    {
      && net.shape.Accepted()
      && weight.Length == net.shape.WeightsEnd()
      && output.Length == net.shape.TotalNeurons()
      && delta.Length == net.shape.TotalNeurons() - net.shape.inputs
      && weight != output && weight != delta && output != delta
    }

    /** The buffers of an accepted topology, with random weights between -0.5 and 0.5. */
    constructor (net: Net, random: nat -> real)
      requires net.shape.Accepted()
      ensures Valid() && this.net == net && fresh(weight) && fresh(output) && fresh(delta)
      ensures forall i :: 0 <= i < weight.Length ==> weight[i] == random(i) - 0.5
    {
      this.net := net;
      net.shape.SlotInRange(net.shape.hiddenLayers, 0);
      net.shape.OutputsInRange(net.shape.hiddenLayers);
      net.shape.LayoutEnd();
      weight := new real[net.shape.TotalWeights()](i => random(i) - 0.5);
      output := new real[net.shape.TotalNeurons()];
      delta := new real[net.shape.TotalNeurons() - net.shape.inputs];
    }

    method SumInputs(w: nat, i: nat, n: nat) returns (sum: real)
      requires w + n + 1 <= weight.Length && i + n <= output.Length
      ensures sum == WeightedSum(weight[..], w, output[i..i + n], n + 1)
    {
      sum := 0.0;
      for k := 0 to n + 1
        invariant sum == WeightedSum(weight[..], w, output[i..i + n], k)
      {
        if k == 0 {
          sum := sum + weight[w] * -1.0;
        } else {
          sum := sum + weight[w + k] * output[i + k - 1];
        }
      }
    }

    method ForwardNeuron(l: nat, j: nat, w: nat, i: nat, ghost xs: seq<real>) returns (value: real)
      requires Valid() && l <= net.shape.hiddenLayers && j < net.shape.Size(l) && w == net.shape.Slot(l, j)
      requires |xs| == net.shape.Fan(l) && i + |xs| <= output.Length && output[i..i + |xs|] == xs
      ensures value == Neuron(net, weight[..], l, j, xs)
    {
      net.shape.SlotInRange(l, j);
      var sum := SumInputs(w, i, net.shape.Fan(l));
      value := Activation(net, l)(sum);
    }

    /** One layer of the forward pass: the cursors w and o advance over the weights read and the outputs written. */
    method ForwardLayer(l: nat, w0: nat, i: nat, o0: nat, ghost xs: seq<real>) returns (w: nat, o: nat)
      requires Valid() && l <= net.shape.hiddenLayers
      requires w0 == net.shape.WeightStart(l) && i == net.shape.InputStart(l) && o0 == net.shape.OutputStart(l)
      requires |xs| == net.shape.Fan(l) && i + |xs| == o0 && o0 + net.shape.Size(l) <= output.Length
      requires output[i..o0] == xs
      modifies output
      ensures w == net.shape.Slot(l, net.shape.Size(l)) && o == o0 + net.shape.Size(l)
      ensures output[..o0] == old(output[..o0])
      ensures output[o0..o] == LayerOutput(net, weight[..], l, xs)
      ensures output[o..] == old(output[o..])
    {
      w, o := w0, o0;
      ghost var before, ys := output[..], LayerOutput(net, weight[..], l, xs);
      for j := 0 to net.shape.Size(l)
        invariant w == net.shape.Slot(l, j) && o == o0 + j
        invariant Written(before, output[..], o0, ys, j)
      {
        assert output[i..o0] == before[i..o0];
        var value := ForwardNeuron(l, j, w, i, xs);
        w := w + net.shape.Fan(l) + 1;
        output[o] := value;
        o := o + 1;
      }
      WrittenSlices(before, output[..], o0, ys);
    }

    /** One hidden layer of the forward pass. */
    method ForwardHidden(h: nat, w0: nat, i: nat, o0: nat, ghost inputs: seq<real>) returns (w: nat, o: nat)
      requires Valid() && h < net.shape.hiddenLayers && |inputs| == net.shape.inputs
      requires w0 == net.shape.WeightStart(h) && i == net.shape.InputStart(h) && o0 == net.shape.OutputStart(h)
      requires HoldsSignals(net, weight[..], inputs, output[..], h)
      modifies output
      ensures w == net.shape.WeightStart(h + 1) && o == net.shape.OutputStart(h + 1)
      ensures HoldsSignals(net, weight[..], inputs, output[..], h + 1)
    {
      ghost var before := output[..];
      net.shape.OutputsInRange(h);
      assert HoldsSignal(net, weight[..], inputs, before, h);
      w, o := ForwardLayer(h, w0, i, o0, Signal(net, weight[..], inputs, h));
      KeepsSignals(net, weight[..], inputs, before, output[..], h);
      AddsSignal(net, weight[..], inputs, output[..], h);
    }

    /** The forward pass.  Its cursors end exactly at the ends of the two buffers, and the buffer of outputs then holds
        the signals of every layer and, from ret on, the answer of the network. */
    method Run(inputs: seq<real>) returns (ret: nat)
      requires Valid() && |inputs| == net.shape.inputs
      modifies output
      ensures HoldsSignals(net, weight[..], inputs, output[..], net.shape.hiddenLayers)
      ensures ret == net.shape.OutputStart(net.shape.hiddenLayers) && ret + net.shape.outputs == output.Length
      ensures output[ret..] == Answer(net, weight[..], inputs)
    {
      net.shape.OutputsInRange(0);
      var w: nat, o: nat, i: nat := 0, net.shape.inputs, 0;
      CopyInputs(inputs);
      assert HoldsSignal(net, weight[..], inputs, output[..], 0);
      for h := 0 to net.shape.hiddenLayers
        invariant w == net.shape.WeightStart(h) && i == net.shape.InputStart(h) && o == net.shape.OutputStart(h)
        invariant HoldsSignals(net, weight[..], inputs, output[..], h)
      {
        w, o := ForwardHidden(h, w, i, o, inputs);
        i := i + (if h == 0 then net.shape.inputs else net.shape.hidden);
      }
      ret := o;
      w, o := ForwardOutput(w, i, o, inputs);
      net.shape.LayoutEnd();
      assert w == net.shape.TotalWeights();
      assert o == net.shape.TotalNeurons();
    }

    method ForwardOutput(w0: nat, i: nat, o0: nat, ghost inputs: seq<real>) returns (w: nat, o: nat)
      requires Valid() && |inputs| == net.shape.inputs
      requires var last := net.shape.hiddenLayers;
               && w0 == net.shape.WeightStart(last) && i == net.shape.InputStart(last)
               && o0 == net.shape.OutputStart(last)
               && HoldsSignals(net, weight[..], inputs, output[..], last)
      modifies output
      ensures w == weight.Length && o == output.Length == o0 + net.shape.outputs
      ensures HoldsSignals(net, weight[..], inputs, output[..], net.shape.hiddenLayers)
      ensures output[o0..] == Answer(net, weight[..], inputs)
    {
      var last := net.shape.hiddenLayers;
      ghost var before := output[..];
      net.shape.OutputsInRange(last);
      net.shape.LayoutEnd();
      assert HoldsSignal(net, weight[..], inputs, before, last);
      w, o := ForwardLayer(last, w0, i, o0, Signal(net, weight[..], inputs, last));
      KeepsSignals(net, weight[..], inputs, before, output[..], last);
    }

    method CopyInputs(inputs: seq<real>)
      requires |inputs| <= output.Length
      modifies output
      ensures output[..|inputs|] == inputs
    {
      for k := 0 to |inputs|
        invariant output[..k] == inputs[..k]
      {
        output[k] := inputs[k];
      }
    }

    /** The deltas of the output layer. */
    method SetOutputDeltas(desired: seq<real>, ghost out: seq<real>)
      requires Valid() && |desired| == |out| == net.shape.outputs
      requires var ret := net.shape.OutputStart(net.shape.hiddenLayers);
               0 <= ret && ret + |out| == output.Length && output[ret..] == out
      modifies delta
      ensures 0 <= net.shape.DeltaStart(net.shape.hiddenLayers) <= delta.Length
      ensures delta[net.shape.DeltaStart(net.shape.hiddenLayers)..] == OutputDeltas(net, out, desired)
    {
      var last := net.shape.hiddenLayers;
      net.shape.OutputsInRange(last);
      var o, d := net.shape.inputs + net.shape.hidden * last, net.shape.hidden * last;
      ghost var o0, d0, ds := o, d, OutputDeltas(net, out, desired);
      for j := 0 to net.shape.outputs
        invariant o == o0 + j && d == d0 + j
        invariant delta[d0..d] == ds[..j]
      {
        assert output[o] == output[o0..][j];
        if net.linear {
          delta[d] := desired[j] - output[o];
        } else {
          delta[d] := (desired[j] - output[o]) * output[o] * (1.0 - output[o]);
        }
        assert delta[d] == ds[j];
        d, o := d + 1, o + 1;
      }
    }

    /** The contribution of neuron k of the next layer to the delta of neuron j. */
    method BackwardTerm(h: nat, j: nat, k: nat, dd: nat, ww: nat, ghost next: seq<real>) returns (term: real)
      requires Valid() && h < net.shape.hiddenLayers && j < net.shape.hidden && k < |next| == net.shape.Size(h + 1)
      requires ww == net.shape.WeightStart(h + 1) && dd + |next| <= delta.Length && delta[dd..dd + |next|] == next
      ensures Backward(net, weight[..], h, j, next, k + 1) == Backward(net, weight[..], h, j, next, k) + term
    {
      var windex := k * (net.shape.hidden + 1) + (j + 1);
      net.shape.SlotInRange(h + 1, k);
      net.shape.BackwardWeight(h, j, k);
      assert delta[dd + k] == delta[dd..dd + |next|][k];
      term := delta[dd + k] * weight[ww + windex];
    }

    method BackwardSum(h: nat, j: nat, ghost next: seq<real>) returns (sum: real)
      requires Valid() && h < net.shape.hiddenLayers && j < net.shape.hidden && |next| == net.shape.Size(h + 1)
      requires var dd := net.shape.DeltaStart(h + 1);
               0 <= dd && dd + |next| <= delta.Length && delta[dd..dd + |next|] == next
      ensures sum == Backward(net, weight[..], h, j, next, |next|)
    {
      var t := net.shape;
      t.BackwardOffsets(h);
      t.LayersGrow(0, h + 1);
      var dd: nat := (h + 1) * t.hidden;
      var ww: nat := (t.inputs + 1) * t.hidden + (t.hidden + 1) * t.hidden * h;
      sum := 0.0;
      for k := 0 to if h == t.hiddenLayers - 1 then t.outputs else t.hidden
        invariant sum == Backward(net, weight[..], h, j, next, k)
      {
        var term := BackwardTerm(h, j, k, dd, ww, next);
        sum := sum + term;
      }
    }

    /** The deltas of one hidden layer, from those of the layer after it. */
    method SetHiddenDeltas(h: nat, o0: nat, d0: nat, ghost next: seq<real>, ghost out: seq<real>)
      requires Valid() && h < net.shape.hiddenLayers && |next| == net.shape.Size(h + 1) && |out| == net.shape.hidden
      requires d0 == net.shape.DeltaStart(h) && d0 + |out| == net.shape.DeltaStart(h + 1)
      requires d0 + |out| + |next| <= delta.Length && delta[d0 + |out|..d0 + |out| + |next|] == next
      requires o0 + |out| <= output.Length && output[o0..o0 + |out|] == out
      modifies delta
      ensures delta[d0..d0 + |out|] == HiddenDeltas(net, weight[..], h, next, out)
      ensures delta[d0 + |out|..] == old(delta[d0 + |out|..])
    {
      var o, d := o0, d0;
      ghost var ds, rest := HiddenDeltas(net, weight[..], h, next, out), delta[d0 + |out|..];
      assert next == rest[..|next|];
      for j := 0 to net.shape.hidden
        invariant o == o0 + j && d == d0 + j
        invariant delta[d0..d] == ds[..j]
        invariant delta[d0 + |out|..] == rest
      {
        assert delta[d0 + |out|..d0 + |out| + |next|] == delta[d0 + |out|..][..|next|];
        assert output[o] == output[o0..o0 + |out|][j];
        var value := HiddenDeltaAt(h, j, output[o], next, out);
        delta[d] := value;
        d, o := d + 1, o + 1;
      }
    }

    method HiddenDeltaAt(h: nat, j: nat, o: real, ghost next: seq<real>, ghost out: seq<real>) returns (value: real)
      requires Valid() && h < net.shape.hiddenLayers && |next| == net.shape.Size(h + 1) && j < |out| == net.shape.hidden
      requires o == out[j]
      requires var dd := net.shape.DeltaStart(h + 1);
               0 <= dd && dd + |next| <= delta.Length && delta[dd..dd + |next|] == next
      ensures value == HiddenDelta(net, weight[..], h, next, out, j)
    {
      var sum := BackwardSum(h, j, next);
      value := o * (1.0 - o) * sum;
    }

    /** All deltas, the output layer first. */
    method SetDeltas(desired: seq<real>, ghost out: seq<real>, ghost signals: seq<seq<real>>,
        ghost deltas: seq<seq<real>>)
      requires Valid() && PerLayer(net, signals, deltas) && SignalsReady(net, output[..], signals)
      requires |desired| == |out| == net.shape.outputs
      requires deltas[net.shape.hiddenLayers] == OutputDeltas(net, out, desired)
      requires Backpropagated(net, weight[..], signals, deltas)
      requires var ret := net.shape.OutputStart(net.shape.hiddenLayers);
               0 <= ret && ret + |out| == output.Length && output[ret..] == out
      modifies delta
      ensures HoldsDeltas(net, deltas, delta[..], 0)
    {
      var last := net.shape.hiddenLayers;
      SetOutputDeltas(desired, out);
      net.shape.LayoutEnd();
      assert HoldsDelta(net, deltas, delta[..], last);
      for h := last downto 0
        invariant HoldsDeltas(net, deltas, delta[..], h)
      {
        assert SignalReady(net, output[..], signals, h + 1) && BackpropagatedAt(net, weight[..], signals, deltas, h);
        SetDeltasOf(h, deltas, signals[h + 1]);
      }
    }

    method SetDeltasOf(h: nat, ghost deltas: seq<seq<real>>, ghost out: seq<real>)
      requires Valid() && DeltaPerLayer(net, deltas) && h < net.shape.hiddenLayers
      requires HoldsDeltas(net, deltas, delta[..], h + 1)
      requires |out| == net.shape.hidden && deltas[h] == HiddenDeltas(net, weight[..], h, deltas[h + 1], out)
      requires var o := net.shape.OutputStart(h); 0 <= o && o + |out| <= output.Length && output[o..o + |out|] == out
      modifies delta
      ensures HoldsDeltas(net, deltas, delta[..], h)
    {
      var t := net.shape;
      ghost var before := delta[..];
      t.OutputsInRange(h);
      t.OutputsInRange(h + 1);
      t.BackwardOffsets(h);
      assert HoldsDelta(net, deltas, before, h + 1);
      var o: nat, d: nat := t.inputs + h * t.hidden, h * t.hidden;
      SetHiddenDeltas(h, o, d, deltas[h + 1], out);
      assert HoldsDelta(net, deltas, delta[..], h);
      AddsDelta(net, deltas, before, delta[..], h);
    }

    /** Raises the weights of one neuron. */
    method TrainNeuron(w0: nat, i: nat, d: real, rate: real, ghost xs: seq<real>, n: nat)
      requires n == |xs| && w0 + n < weight.Length && i + n <= output.Length && output[i..i + n] == xs
      requires weight != output
      modifies weight
      ensures NeuronRaised(old(weight[..]), weight[..], w0, xs, d, rate)
    {
      var w := w0;
      for k := 0 to n + 1
        invariant w == w0 + k
        invariant forall m :: 0 <= m < k ==> weight[w0 + m] == old(weight[w0 + m]) + d * rate * Input(xs, m)
        invariant forall x :: 0 <= x < weight.Length && !(w0 <= x < w) ==> weight[x] == old(weight[x])
      {
        if k == 0 {
          weight[w] := weight[w] + d * rate * -1.0;
        } else {
          assert output[i + k - 1] == output[i..i + n][k - 1];
          weight[w] := weight[w] + d * rate * output[i + k - 1];
        }
        w := w + 1;
      }
    }

    /** Raises the weights of one layer. */
    method TrainLayer(l: nat, w0: nat, i: nat, d0: nat, rate: real, ghost before: seq<real>,
        ghost signals: seq<seq<real>>, ghost deltas: seq<seq<real>>)
      returns (w: nat)
      requires Valid() && Fits(net, before) && PerLayer(net, signals, deltas) && l <= net.shape.hiddenLayers
      requires w0 == net.shape.WeightStart(l)
      requires i + net.shape.Fan(l) <= output.Length && output[i..i + net.shape.Fan(l)] == signals[l]
      requires d0 + net.shape.Size(l) <= delta.Length && delta[d0..d0 + net.shape.Size(l)] == deltas[l]
      requires TrainedTo(net, before, weight[..], signals, deltas, rate, l, 0)
      modifies weight
      ensures TrainedTo(net, before, weight[..], signals, deltas, rate, l - 1, 0)
      ensures w == net.shape.Slot(l, net.shape.Size(l))
    {
      var t := net.shape;
      w := w0;
      for j := 0 to t.Size(l)
        invariant w == t.Slot(l, j)
        invariant TrainedTo(net, before, weight[..], signals, deltas, rate, l, j)
      {
        ghost var mid := weight[..];
        t.SlotInRange(l, j);
        assert delta[d0 + j] == delta[d0..d0 + t.Size(l)][j];
        TrainNeuron(w, i, delta[d0 + j], rate, signals[l], t.Fan(l));
        NeuronTrained(net, before, mid, weight[..], signals, deltas, rate, l, j);
        w := w + t.Fan(l) + 1;
      }
      LayerTrained(net, before, weight[..], signals, deltas, rate, l);
    }

    /** The weights of the output layer, then those of the hidden layers, the last first. */
    method TrainWeights(rate: real, ghost signals: seq<seq<real>>, ghost deltas: seq<seq<real>>)
      requires Valid() && PerLayer(net, signals, deltas) && SignalsReady(net, output[..], signals)
      requires HoldsDeltas(net, deltas, delta[..], 0)
      modifies weight
      ensures TrainedTo(net, old(weight[..]), weight[..], signals, deltas, rate, -1, 0)
    {
      ghost var before := weight[..];
      NothingTrained(net, before, signals, deltas, rate);
      for l := net.shape.hiddenLayers + 1 downto 0
        invariant TrainedTo(net, before, weight[..], signals, deltas, rate, l - 1, 0)
      {
        TrainLayerAt(l, rate, before, signals, deltas);
      }
    }

    /** Finds where the weights, inputs and deltas of a layer start, and raises its weights. */
    method TrainLayerAt(l: nat, rate: real, ghost before: seq<real>, ghost signals: seq<seq<real>>,
        ghost deltas: seq<seq<real>>)
      requires Valid() && Fits(net, before) && PerLayer(net, signals, deltas) && SignalsReady(net, output[..], signals)
      requires HoldsDeltas(net, deltas, delta[..], 0)
      requires l <= net.shape.hiddenLayers && TrainedTo(net, before, weight[..], signals, deltas, rate, l, 0)
      modifies weight
      ensures TrainedTo(net, before, weight[..], signals, deltas, rate, l - 1, 0)
    {
      var t := net.shape;
      assert SignalReady(net, output[..], signals, l) && HoldsDelta(net, deltas, delta[..], l);
      t.OutputsInRange(l);
      t.LayersGrow(0, l);
      t.WeightFormula(l);
      t.DeltaFormula(l);
      t.LayoutEnd();
      var w: nat := if l > 0 then (t.inputs + 1) * t.hidden + (t.hidden + 1) * t.hidden * (l - 1) else 0;
      var i: nat := if l > 0 then t.inputs + t.hidden * (l - 1) else 0;
      w := TrainLayer(l, w, i, t.hidden * l, rate, before, signals, deltas);
      assert l == t.hiddenLayers ==> w == t.TotalWeights();
    }

    /** One backpropagation step: every weight is raised exactly once, by the rate times the delta of its neuron
        times its input, where all signals and deltas are those of the weights before the step. */
    method Train(inputs: seq<real>, desired: seq<real>, rate: real)
      requires Valid() && |inputs| == net.shape.inputs && |desired| == net.shape.outputs
      modifies weight, output, delta
      ensures TrainedTo(net, old(weight[..]), weight[..], Signals(net, old(weight[..]), inputs),
                Deltas(net, old(weight[..]), inputs, desired), rate, -1, 0)
    {
      var ret := Run(inputs);
      ghost var signals, deltas := Signals(net, weight[..], inputs), Deltas(net, weight[..], inputs, desired);
      BuffersReady(net, weight[..], inputs, output[..], signals);
      DeltasBackpropagate(net, weight[..], inputs, desired);
      SetDeltas(desired, Answer(net, weight[..], inputs), signals, deltas);
      TrainWeights(rate, signals, deltas);
    }
  }

  lemma BuffersReady(net: Net, w: seq<real>, input: seq<real>, out: seq<real>, signals: seq<seq<real>>)
    requires Fits(net, w) && |input| == net.shape.inputs && signals == Signals(net, w, input)
    requires |out| == net.shape.TotalNeurons() && HoldsSignals(net, w, input, out, net.shape.hiddenLayers)
    ensures SignalsReady(net, out, signals)
  {
    forall l | 0 <= l <= net.shape.hiddenLayers ensures SignalReady(net, out, signals, l) {
      assert HoldsSignal(net, w, input, out, l);
      net.shape.OutputsInRange(l);
    }
  }

  lemma DeltasBackpropagate(net: Net, w: seq<real>, input: seq<real>, desired: seq<real>)
    requires Fits(net, w) && |input| == net.shape.inputs && |desired| == net.shape.outputs
    ensures Backpropagated(net, w, Signals(net, w, input), Deltas(net, w, input, desired))
  {
  }

  /** After a training step, every weight belongs to exactly one connection and has been raised once, by its
      gradient. */
  lemma EveryWeightRaisedOnce(net: Net, before: seq<real>, after: seq<real>, signals: seq<seq<real>>,
      deltas: seq<seq<real>>, rate: real, x: nat)
    returns (l: nat, j: nat, k: nat)
    requires Fits(net, before) && PerLayer(net, signals, deltas)
    requires TrainedTo(net, before, after, signals, deltas, rate, -1, 0) && x < |before|
    ensures net.shape.Connects(x, l, j, k)
    ensures forall l', j', k' :: net.shape.Connects(x, l', j', k') ==> l' == l && j' == j && k' == k
    ensures after[x] == before[x] + rate * deltas[l][j] * if k == 0 then -1.0 else signals[l][k - 1]
  {
    l, j, k := net.shape.ConnectionExists(x);
    forall l', j', k' | net.shape.Connects(x, l', j', k') ensures l' == l && j' == j && k' == k {
      net.shape.ConnectionIsUnique(x, l, j, k, l', j', k');
    }
    assert WeightTrained(net, before, after, signals, deltas, rate, -1, 0, l, j, k);
  }

  /** genann_init: no network for a topology that makes no sense. */
  method GenannInit(shape: Topology, act: real -> real, random: nat -> real) returns (ann: Genann?)
    ensures ann != null <==>
              0 <= shape.hiddenLayers && 1 <= shape.inputs && 1 <= shape.outputs
              && (shape.hiddenLayers > 0 ==> 1 <= shape.hidden)
    ensures ann != null ==> ann.Valid() && ann.net == Net(shape, act, act, false)
    ensures ann != null ==> forall i :: 0 <= i < ann.weight.Length ==> ann.weight[i] == random(i) - 0.5
  {
    if shape.hiddenLayers < 0 || shape.inputs < 1 || shape.outputs < 1 || (shape.hiddenLayers > 0 && shape.hidden < 1) {
      return null;
    }
    ann := new Genann(Net(shape, act, act, false), random);
  }
}
