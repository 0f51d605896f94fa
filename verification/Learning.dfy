/** What the network of genann.c computes and what a training step does to it, in terms of the numbers in its
    buffers. */
module Learning {
  import opened Layouts
  import opened Genanns

  function Dot(a: seq<real>, b: seq<real>): real
    requires |a| == |b|
  {
    if a == [] then 0.0 else Dot(a[..|a| - 1], b[..|a| - 1]) + a[|a| - 1] * b[|a| - 1]
  }

  // ---------------------------------------------------------------- the forward pass

  /** The sum is that of the weights times the inputs, less the bias weight. */
  lemma {:induction false} SumIsDot(w: seq<real>, start: nat, xs: seq<real>)
    requires start + |xs| + 1 <= |w|
    ensures WeightedSum(w, start, xs, |xs| + 1) == Dot(w[start + 1..start + 1 + |xs|], xs) - w[start]
  {
    var row := w[start + 1..start + 1 + |xs|];
    if xs == [] {
      assert WeightedSum(w, start, xs, 1) == WeightedSum(w, start, xs, 0) + w[start] * -1.0;
    } else {
      var n := |xs| - 1;
      SumIsDot(w, start, xs[..n]);
      SamePrefix(w, start, xs, n, n + 1);
      assert row[..n] == w[start + 1..start + 1 + n];
    }
  }

  lemma {:induction false} SamePrefix(w: seq<real>, start: nat, xs: seq<real>, n: nat, k: nat)
    requires n <= |xs| && k <= n + 1 && start + k <= |w|
    ensures WeightedSum(w, start, xs, k) == WeightedSum(w, start, xs[..n], k)
  {
    if k > 0 {
      SamePrefix(w, start, xs, n, k - 1);
    }
  }

  /** The value is the activation of the weights times the inputs, less the bias weight. */
  ghost predicate Computes(act: real -> real, w: seq<real>, start: int, xs: seq<real>, value: real) {
    && 0 <= start && start + |xs| + 1 <= |w|
    && value == act(Dot(w[start + 1..start + 1 + |xs|], xs) - w[start])
  }

  /** Every neuron applies the activation of its layer to its weights and the signals before it. */
  lemma NeuronIs(net: Net, w: seq<real>, l: nat, j: nat, xs: seq<real>)
    requires Fits(net, w) && l <= net.shape.hiddenLayers && j < net.shape.Size(l) && |xs| == net.shape.Fan(l)
    ensures Computes(if l == net.shape.hiddenLayers then net.outputAct else net.hiddenAct, w, net.shape.Slot(l, j), xs,
                     LayerOutput(net, w, l, xs)[j])
  {
    net.shape.SlotInRange(l, j);
    SumIsDot(w, net.shape.Slot(l, j), xs);
  }

  /** So it does in the whole network: the first layer reads the input, every other one the outputs of the layer before
      it, and the last one answers. */
  lemma NetworkComputes(net: Net, w: seq<real>, input: seq<real>, l: nat, j: nat)
    requires Fits(net, w) && |input| == net.shape.inputs && l <= net.shape.hiddenLayers && j < net.shape.Size(l)
    ensures Signal(net, w, input, 0) == input
    ensures l < net.shape.hiddenLayers ==>
              Computes(net.hiddenAct, w, net.shape.Slot(l, j), Signal(net, w, input, l),
                       Signal(net, w, input, l + 1)[j])
    ensures l == net.shape.hiddenLayers ==>
              Computes(net.outputAct, w, net.shape.Slot(l, j), Signal(net, w, input, l), Answer(net, w, input)[j])
  {
    NeuronIs(net, w, l, j, Signal(net, w, input, l));
  }

  // ---------------------------------------------------------------- what a step does to the sums

  function InputSquares(xs: seq<real>, k: nat): real
    requires k <= |xs| + 1
  {
    if k == 0 then 0.0 else InputSquares(xs, k - 1) + Input(xs, k - 1) * Input(xs, k - 1)
  }

  lemma {:induction false} InputSquaresAre(xs: seq<real>)
    ensures InputSquares(xs, |xs| + 1) == 1.0 + Dot(xs, xs)
  {
    if xs == [] {
      assert InputSquares(xs, 1) == InputSquares(xs, 0) + (-1.0) * (-1.0);
    } else {
      var n := |xs| - 1;
      InputSquaresAre(xs[..n]);
      SquaresOfPrefix(xs, n, n + 1);
    }
  }

  lemma {:induction false} SquaresOfPrefix(xs: seq<real>, n: nat, k: nat)
    requires n <= |xs| && k <= n + 1
    ensures InputSquares(xs, k) == InputSquares(xs[..n], k)
  {
    if k > 0 {
      SquaresOfPrefix(xs, n, k - 1);
    }
  }

  lemma RaisedTerm(sum: real, sum': real, w: real, w': real, d: real, x: real, squares: real)
    requires sum' == sum + d * squares && w' == w + d * x
    ensures sum' + w' * x == sum + w * x + d * (squares + x * x)
  {
    assert w' * x == w * x + d * (x * x) && d * (squares + x * x) == d * squares + d * (x * x);
  }

  /** One more input of the row. */
  lemma RaisedStep(before: seq<real>, after: seq<real>, start: nat, xs: seq<real>, d: real, i: nat)
    requires i <= |xs| && start + i < |before| == |after|
    requires after[start + i] == before[start + i] + d * Input(xs, i)
    requires WeightedSum(after, start, xs, i) == WeightedSum(before, start, xs, i) + d * InputSquares(xs, i)
    ensures WeightedSum(after, start, xs, i + 1) == WeightedSum(before, start, xs, i + 1) + d * InputSquares(xs, i + 1)
  {
    RaisedTerm(WeightedSum(before, start, xs, i), WeightedSum(after, start, xs, i), before[start + i],
               after[start + i], d, Input(xs, i), InputSquares(xs, i));
  }

  lemma {:induction false} RaisedSum(before: seq<real>, after: seq<real>, start: nat, xs: seq<real>, d: real, k: nat)
    requires RowRaised(before, after, start, xs, d) && k <= |xs| + 1
    ensures WeightedSum(after, start, xs, k) == WeightedSum(before, start, xs, k) + d * InputSquares(xs, k)
  {
    if k > 0 {
      RaisedSum(before, after, start, xs, d, k - 1);
      RaisedStep(before, after, start, xs, d, k - 1);
    }
  }

  /** The weights of the row have been raised by rate times delta times input. */
  ghost predicate RowRaised(before: seq<real>, after: seq<real>, start: int, xs: seq<real>, d: real) {
    && |after| == |before| && 0 <= start && start + |xs| + 1 <= |before|
    && forall i :: 0 <= i <= |xs| ==> after[start + i] == before[start + i] + d * Input(xs, i)
  }

  /** The sum over the row has moved by d times one more than the squares of the signals. */
  ghost predicate SumMoved(before: seq<real>, after: seq<real>, start: int, xs: seq<real>, d: real) {
    && |after| == |before| && 0 <= start && start + |xs| + 1 <= |before|
    && WeightedSum(after, start, xs, |xs| + 1) == WeightedSum(before, start, xs, |xs| + 1) + d * (1.0 + Dot(xs, xs))
  }

  lemma RowMovesSum(before: seq<real>, after: seq<real>, start: nat, xs: seq<real>, d: real)
    requires RowRaised(before, after, start, xs, d)
    ensures SumMoved(before, after, start, xs, d)
  {
    RaisedSum(before, after, start, xs, d, |xs| + 1);
    InputSquaresAre(xs);
  }

  lemma TrainedRow(net: Net, before: seq<real>, after: seq<real>, signals: seq<seq<real>>, deltas: seq<seq<real>>,
      rate: real, l: nat, j: nat)
    requires Fits(net, before) && PerLayer(net, signals, deltas) && l <= net.shape.hiddenLayers && j < net.shape.Size(l)
    requires TrainedTo(net, before, after, signals, deltas, rate, -1, 0)
    ensures RowRaised(before, after, net.shape.Slot(l, j), signals[l], deltas[l][j] * rate)
  {
    net.shape.SlotInRange(l, j);
    var b, xs := net.shape.Slot(l, j), signals[l];
    forall i | 0 <= i <= |xs| ensures after[b + i] == before[b + i] + deltas[l][j] * rate * Input(xs, i) {
      TrainedEntry(net, before, after, signals, deltas, rate, l, j, i);
    }
  }

  lemma TrainedEntry(net: Net, before: seq<real>, after: seq<real>, signals: seq<seq<real>>, deltas: seq<seq<real>>,
      rate: real, l: nat, j: nat, i: nat)
    requires Fits(net, before) && PerLayer(net, signals, deltas) && l <= net.shape.hiddenLayers && j < net.shape.Size(l)
    requires TrainedTo(net, before, after, signals, deltas, rate, -1, 0) && i <= |signals[l]|
    ensures var b := net.shape.Slot(l, j);
            && 0 <= b && b + i < |before| == |after|
            && after[b + i] == before[b + i] + deltas[l][j] * rate * Input(signals[l], i)
  {
    net.shape.SlotInRange(l, j);
    assert WeightTrained(net, before, after, signals, deltas, rate, -1, 0, l, j, i);
  }

  /** A training step changes the sum of a neuron, over the signals it was trained with, by rate times delta times
      one more than the squares of these signals. */
  lemma SumMoves(net: Net, before: seq<real>, after: seq<real>, signals: seq<seq<real>>, deltas: seq<seq<real>>,
      rate: real, l: nat, j: nat)
    returns (move: real)
    requires Fits(net, before) && PerLayer(net, signals, deltas) && l <= net.shape.hiddenLayers && j < net.shape.Size(l)
    requires TrainedTo(net, before, after, signals, deltas, rate, -1, 0)
    ensures move == deltas[l][j] * rate && SumMoved(before, after, net.shape.Slot(l, j), signals[l], move)
  {
    move := deltas[l][j] * rate;
    TrainedRow(net, before, after, signals, deltas, rate, l, j);
    RowMovesSum(before, after, net.shape.Slot(l, j), signals[l], move);
  }

  /** The delta of an output neuron is its error times the slope of the activation, which is 1 for the linear one. */
  lemma DeltaIsErrorTimesSlope(net: Net, out: real, desired: real)
    ensures OutputDelta(net, out, desired) == (desired - out) * if net.linear then 1.0 else out * (1.0 - out)
  {
    Regroup(desired - out, out, 1.0 - out);
  }

  /** So it always points to the desired output. */
  lemma DeltaPointsToDesired(net: Net, out: real, desired: real)
    requires net.linear || 0.0 < out < 1.0
    ensures OutputDelta(net, out, desired) > 0.0 <==> desired > out
    ensures OutputDelta(net, out, desired) < 0.0 <==> desired < out
  {
    DeltaIsErrorTimesSlope(net, out, desired);
    Positive(if net.linear then 1.0 else out, if net.linear then 1.0 else 1.0 - out);
    SignOfProduct(OutputDelta(net, out, desired), desired - out, if net.linear then 1.0 else out * (1.0 - out));
  }

  lemma Positive(a: real, b: real)
    requires a > 0.0 && b > 0.0
    ensures a * b > 0.0
  {
  }

  lemma SignOfProduct(d: real, e: real, slope: real)
    requires slope > 0.0 && d == e * slope
    ensures d > 0.0 <==> e > 0.0
    ensures d < 0.0 <==> e < 0.0
  {
    if e > 0.0 {
      Positive(e, slope);
    } else if e < 0.0 {
      Positive(-e, slope);
    }
  }

  lemma Regroup(a: real, b: real, c: real)
    ensures a * b * c == a * (b * c)
  {
  }

  /** The deltas of the output layer are those of its answer. */
  lemma LastDeltas(net: Net, w: seq<real>, input: seq<real>, desired: seq<real>, deltas: seq<seq<real>>, j: nat)
    requires Fits(net, w) && |input| == net.shape.inputs && |desired| == net.shape.outputs && j < net.shape.outputs
    requires deltas == Deltas(net, w, input, desired)
    ensures deltas[net.shape.hiddenLayers][j] == OutputDelta(net, Answer(net, w, input)[j], desired[j])
  {
  }

  lemma FirstSignals(net: Net, w: seq<real>, input: seq<real>, signals: seq<seq<real>>)
    requires Fits(net, w) && |input| == net.shape.inputs && signals == Signals(net, w, input)
    ensures signals[0] == input
  {
  }

  lemma SameMove(before: seq<real>, after: seq<real>, b: int, xs: seq<real>, ys: seq<real>, move: real)
    requires SumMoved(before, after, b, xs, move) && xs == ys
    ensures SumMoved(before, after, b, ys, move)
  {
  }

  /** Without hidden layers and with the identity as activation, a step takes the same share off the error of every
      output. */
  lemma LinearErrorShrinks(net: Net, before: seq<real>, after: seq<real>, input: seq<real>, desired: seq<real>,
      signals: seq<seq<real>>, deltas: seq<seq<real>>, rate: real, j: nat)
    requires Fits(net, before) && |input| == net.shape.inputs && |desired| == net.shape.outputs && j < net.shape.outputs
    requires signals == Signals(net, before, input) && deltas == Deltas(net, before, input, desired)
    requires TrainedTo(net, before, after, signals, deltas, rate, -1, 0)
    requires net.shape.hiddenLayers == 0 && net.linear && forall z :: net.outputAct(z) == z
    ensures desired[j] - Answer(net, after, input)[j]
         == (desired[j] - Answer(net, before, input)[j]) * (1.0 - rate * (1.0 + Dot(input, input)))
  {
    var d, move := LinearStep(net, before, after, input, desired, signals, deltas, rate, j);
    LinearAnswer(net, before, input, j);
    LinearAnswer(net, after, input, j);
    ErrorShrinks(before, after, net.shape.Slot(0, j), input, desired[j], Answer(net, before, input)[j],
                 Answer(net, after, input)[j], d, move, rate);
  }

  lemma LinearStep(net: Net, before: seq<real>, after: seq<real>, input: seq<real>, desired: seq<real>,
      signals: seq<seq<real>>, deltas: seq<seq<real>>, rate: real, j: nat)
    returns (d: real, move: real)
    requires Fits(net, before) && |input| == net.shape.inputs && |desired| == net.shape.outputs && j < net.shape.outputs
    requires signals == Signals(net, before, input) && deltas == Deltas(net, before, input, desired)
    requires TrainedTo(net, before, after, signals, deltas, rate, -1, 0) && net.shape.hiddenLayers == 0 && net.linear
    ensures d == desired[j] - Answer(net, before, input)[j] && move == d * rate
    ensures SumMoved(before, after, net.shape.Slot(0, j), input, move)
  {
    d := deltas[0][j];
    LastDeltas(net, before, input, desired, deltas, j);
    FirstSignals(net, before, input, signals);
    move := SumMoves(net, before, after, signals, deltas, rate, 0, j);
    SameMove(before, after, net.shape.Slot(0, j), signals[0], input, move);
  }

  lemma LinearAnswer(net: Net, w: seq<real>, input: seq<real>, j: nat)
    requires Fits(net, w) && |input| == net.shape.inputs && j < net.shape.outputs
    requires net.shape.hiddenLayers == 0 && forall z :: net.outputAct(z) == z
    ensures 0 <= net.shape.Slot(0, j) && net.shape.Slot(0, j) + |input| + 1 <= |w|
    ensures Answer(net, w, input)[j] == WeightedSum(w, net.shape.Slot(0, j), input, |input| + 1)
  {
    net.shape.SlotInRange(0, j);
  }

  lemma ErrorShrinks(before: seq<real>, after: seq<real>, b: nat, input: seq<real>, desired: real, out: real,
      out': real, d: real, move: real, rate: real)
    requires b + |input| + 1 <= |before| == |after|
    requires out == WeightedSum(before, b, input, |input| + 1) && out' == WeightedSum(after, b, input, |input| + 1)
    requires d == desired - out && move == d * rate && SumMoved(before, after, b, input, move)
    ensures desired - out' == (desired - out) * (1.0 - rate * (1.0 + Dot(input, input)))
  {
    Shrink(d, rate, move, 1.0 + Dot(input, input));
  }

  lemma Shrink(e: real, rate: real, move: real, n: real)
    requires move == e * rate
    ensures e - move * n == e * (1.0 - rate * n)
  {
  }

  // ---------------------------------------------------------------- what the hidden deltas are

  /** The weights that lead from neuron j of layer l to the neurons of the next layer. */
  function Column(net: Net, w: seq<real>, l: nat, j: nat): (c: seq<real>)
    requires Fits(net, w) && l < net.shape.hiddenLayers && j < net.shape.hidden
    ensures |c| == net.shape.Size(l + 1)
  {
    seq(net.shape.Size(l + 1), k requires 0 <= k < net.shape.Size(l + 1) =>
      net.shape.SlotInRange(l + 1, k);
      w[net.shape.Slot(l + 1, k) + j + 1])
  }

  /** Raising one signal by 1 raises a sum by the weight between them. */
  lemma {:induction false} SumSlope(w: seq<real>, start: nat, xs: seq<real>, j: nat, k: nat)
    requires j < |xs| && k <= |xs| + 1 && start + |xs| + 1 <= |w|
    ensures WeightedSum(w, start, xs[j := xs[j] + 1.0], k)
         == WeightedSum(w, start, xs, k) + if j + 1 < k then w[start + j + 1] else 0.0
  {
    if k > 0 {
      SumSlope(w, start, xs, j, k - 1);
      var i := k - 1;
      if i == j + 1 {
        assert w[start + i] * (xs[j] + 1.0) == w[start + i] * xs[j] + w[start + i];
      }
    }
  }

  /** So a column holds the rates at which the sums of the next layer follow the signal of the neuron. */
  lemma ColumnIsSlope(net: Net, w: seq<real>, l: nat, j: nat, xs: seq<real>, k: nat)
    requires Fits(net, w) && l < net.shape.hiddenLayers && j < net.shape.hidden == |xs| && k < net.shape.Size(l + 1)
    ensures var b := net.shape.Slot(l + 1, k);
            && 0 <= b && b + |xs| + 1 <= |w|
            && WeightedSum(w, b, xs[j := xs[j] + 1.0], |xs| + 1) - WeightedSum(w, b, xs, |xs| + 1)
                == Column(net, w, l, j)[k]
  {
    net.shape.SlotInRange(l + 1, k);
    SumSlope(w, net.shape.Slot(l + 1, k), xs, j, |xs| + 1);
  }

  lemma {:induction false} BackwardIsDot(net: Net, w: seq<real>, l: nat, j: nat, next: seq<real>, k: nat)
    requires Fits(net, w) && l < net.shape.hiddenLayers && j < net.shape.hidden
    requires |next| == net.shape.Size(l + 1) && k <= |next|
    ensures Backward(net, w, l, j, next, k) == Dot(next[..k], Column(net, w, l, j)[..k])
  {
    if k > 0 {
      BackwardIsDot(net, w, l, j, next, k - 1);
      DotStep(next, Column(net, w, l, j), k - 1);
      net.shape.SlotInRange(l + 1, k - 1);
    }
  }

  lemma DotStep(a: seq<real>, b: seq<real>, n: nat)
    requires n < |a| == |b|
    ensures Dot(a[..n + 1], b[..n + 1]) == Dot(a[..n], b[..n]) + a[n] * b[n]
  {
    assert a[..n + 1][..n] == a[..n] && b[..n + 1][..n] == b[..n];
  }

  /** The delta is the slope of the activation times the deltas of the next layer, each at the rate at which its neuron
      follows this one. */
  ghost predicate Backpropagates(out: real, delta: real, next: seq<real>, rates: seq<real>) {
    |next| == |rates| && delta == out * (1.0 - out) * Dot(next, rates)
  }

  lemma HiddenDeltaIs(net: Net, w: seq<real>, l: nat, next: seq<real>, xs: seq<real>, j: nat)
    requires Fits(net, w) && l < net.shape.hiddenLayers && |next| == net.shape.Size(l + 1)
    requires j < |xs| == net.shape.hidden
    ensures Backpropagates(xs[j], HiddenDeltas(net, w, l, next, xs)[j], next, Column(net, w, l, j))
  {
    BackwardIsDot(net, w, l, j, next, |next|);
    assert next[..|next|] == next && Column(net, w, l, j)[..|next|] == Column(net, w, l, j);
  }

  /** So it is in the whole network, over the deltas of the next layer and the signals between the two. */
  lemma HiddenDeltasBackpropagate(net: Net, w: seq<real>, input: seq<real>, desired: seq<real>, l: nat, j: nat)
    requires Fits(net, w) && |input| == net.shape.inputs && |desired| == net.shape.outputs
    requires l < net.shape.hiddenLayers && j < net.shape.hidden
    ensures Backpropagates(Signal(net, w, input, l + 1)[j], Delta(net, w, input, desired, l)[j],
                           Delta(net, w, input, desired, l + 1), Column(net, w, l, j))
  {
    HiddenDeltaIs(net, w, l, Delta(net, w, input, desired, l + 1), Signal(net, w, input, l + 1), j);
  }
}
