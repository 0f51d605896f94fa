/** Where genann.c keeps the weights, outputs and deltas of each layer in its flat buffers.
    Layers are numbered from 0; layer hiddenLayers is the output layer. */
module Layouts {
  import opened Numbers

  datatype Topology = Topology(inputs: int, hiddenLayers: int, hidden: int, outputs: int) {

    /** The topologies that genann_init accepts. */
    predicate Accepted() {
      0 <= hiddenLayers && 1 <= inputs && 1 <= outputs && (hiddenLayers > 0 ==> 1 <= hidden)
    }

    /** The number of neurons of layer l. */
    function Size(l: nat): nat
      requires Accepted() && l <= hiddenLayers
    {
      if l == hiddenLayers then outputs else hidden
    }

    /** The number of inputs of each neuron of layer l, the bias not counted. */
    function Fan(l: nat): nat
      requires Accepted() && l <= hiddenLayers
    {
      if l == 0 then inputs else hidden
    }

    /** The first weight of neuron j of layer l: the weights of a neuron, its bias first, follow those of the neuron
        before it, and the weights of a layer those of the layer before it. */
    function Slot(l: nat, j: nat): int
      requires Accepted() && l <= hiddenLayers
      decreases l, j
    {
      if j > 0 then Slot(l, j - 1) + Fan(l) + 1 else if l > 0 then Slot(l - 1, Size(l - 1)) else 0
    }

    function WeightStart(l: nat): int
      requires Accepted() && l <= hiddenLayers
    {
      Slot(l, 0)
    }

    /** The first delta of layer l: there is one delta for each neuron. */
    function DeltaStart(l: nat): int
      requires Accepted() && l <= hiddenLayers
    {
      if l == 0 then 0 else DeltaStart(l - 1) + Size(l - 1)
    }

    /** The first output of layer l: the outputs follow the inputs of the network. */
    function OutputStart(l: nat): int
      requires Accepted() && l <= hiddenLayers
    {
      inputs + DeltaStart(l)
    }

    /** The first input of layer l among the outputs. */
    function InputStart(l: nat): int
      requires Accepted() && l <= hiddenLayers
    {
      if l == 0 then 0 else OutputStart(l - 1)
    }

    /** Where the weights end. */
    function WeightsEnd(): int
      requires Accepted()
    {
      Slot(hiddenLayers, outputs)
    }

    function TotalWeights(): int
      requires Accepted()
    {
      var hiddenWeights :=
        if hiddenLayers > 0 then (inputs + 1) * hidden + (hiddenLayers - 1) * (hidden + 1) * hidden else 0;
      var outputWeights := (if hiddenLayers > 0 then hidden + 1 else inputs + 1) * outputs;
      hiddenWeights + outputWeights
    }

    function TotalNeurons(): int
      requires Accepted()
    {
      inputs + hidden * hiddenLayers + outputs
    }

    // -------------------------------------------------------------- the products that the code computes

    lemma {:induction false} SlotFormula(l: nat, j: nat)
      requires Accepted() && l <= hiddenLayers
      ensures Slot(l, j) == WeightStart(l) + j * (Fan(l) + 1)
    {
      if j > 0 {
        SlotFormula(l, j - 1);
        assert j * (Fan(l) + 1) == (j - 1) * (Fan(l) + 1) + (Fan(l) + 1);
      }
    }

    lemma {:induction false} WeightFormula(l: nat)
      requires Accepted() && l <= hiddenLayers
      ensures WeightStart(l) == if l > 0 then (inputs + 1) * hidden + (hidden + 1) * hidden * (l - 1) else 0
    {
      if l > 0 {
        WeightFormula(l - 1);
        SlotFormula(l - 1, hidden);
        if l == 1 {
          assert hidden * (inputs + 1) == (inputs + 1) * hidden && (hidden + 1) * hidden * 0 == 0;
        } else {
          assert (hidden + 1) * hidden * (l - 1) == (hidden + 1) * hidden * (l - 2) + hidden * (hidden + 1);
        }
      }
    }

    lemma {:induction false} DeltaFormula(l: nat)
      requires Accepted() && l <= hiddenLayers
      ensures DeltaStart(l) == hidden * l && OutputStart(l) == inputs + hidden * l
      ensures InputStart(l) == if l > 0 then inputs + hidden * (l - 1) else 0
    {
      if l == 0 {
        assert hidden * 0 == 0;
      } else {
        DeltaFormula(l - 1);
        assert hidden * l == hidden * (l - 1) + hidden;
      }
    }

    /** The layout ends where genann_init says it does. */
    lemma LayoutEnd()
      requires Accepted()
      ensures WeightsEnd() == TotalWeights()
      ensures OutputStart(hiddenLayers) + outputs == TotalNeurons()
    {
      WeightFormula(hiddenLayers);
      SlotFormula(hiddenLayers, outputs);
      DeltaFormula(hiddenLayers);
      Commute(outputs, Fan(hiddenLayers) + 1);
      if hiddenLayers > 0 {
        Rotate(hiddenLayers - 1, hidden + 1, hidden);
      }
    }

    static lemma Rotate(a: int, b: int, c: int)
      ensures a * b * c == b * c * a
    {
    }

    /** The offsets that backpropagation computes are those of the forward pass. */
    lemma BackwardOffsets(h: nat)
      requires Accepted() && h < hiddenLayers
      ensures inputs + h * hidden == OutputStart(h) && h * hidden == DeltaStart(h)
      ensures (h + 1) * hidden == DeltaStart(h + 1)
      ensures (inputs + 1) * hidden + (hidden + 1) * hidden * h == WeightStart(h + 1)
    {
      DeltaFormula(h);
      DeltaFormula(h + 1);
      WeightFormula(h + 1);
      assert h * hidden == hidden * h && (h + 1) * hidden == hidden * (h + 1);
    }

    lemma BackwardWeight(h: nat, j: nat, k: nat)
      requires Accepted() && h < hiddenLayers
      ensures WeightStart(h + 1) + (k * (hidden + 1) + (j + 1)) == Slot(h + 1, k) + j + 1
    {
      SlotFormula(h + 1, k);
    }

    // -------------------------------------------------------------- order

    lemma {:induction false} SlotsGrow(l: nat, i: nat, j: nat)
      requires Accepted() && l <= hiddenLayers && i <= j
      ensures Slot(l, i) <= Slot(l, j)
      ensures i < j ==> Slot(l, i) + Fan(l) + 1 <= Slot(l, j)
      decreases j - i
    {
      if i < j {
        SlotsGrow(l, i, j - 1);
      }
    }

    lemma {:induction false} LayersGrow(l: nat, m: nat)
      requires Accepted() && l <= m <= hiddenLayers
      ensures WeightStart(l) <= WeightStart(m)
      ensures l < m ==> Slot(l, Size(l)) <= WeightStart(m)
      ensures InputStart(l) <= InputStart(m) && OutputStart(l) <= OutputStart(m) && DeltaStart(l) <= DeltaStart(m)
      decreases m - l
    {
      if l < m {
        SlotsGrow(l, 0, Size(l));
        LayersGrow(l + 1, m);
      }
    }

    /** Every slot lies inside the weights. */
    lemma SlotInRange(l: nat, j: nat)
      requires Accepted() && l <= hiddenLayers && j < Size(l)
      ensures 0 <= Slot(l, j) && Slot(l, j) + Fan(l) + 1 <= Slot(l, Size(l)) <= WeightsEnd()
    {
      LayersGrow(0, l);
      SlotsGrow(l, 0, j);
      SlotsGrow(l, j, Size(l));
      LayersGrow(l, hiddenLayers);
      SlotsGrow(hiddenLayers, 0, Size(hiddenLayers));
    }

    /** The outputs and deltas of every layer lie inside their buffers. */
    lemma OutputsInRange(l: nat)
      requires Accepted() && l <= hiddenLayers
      ensures 0 <= InputStart(l) && InputStart(l) + Fan(l) == OutputStart(l)
      ensures OutputStart(l) + Size(l) <= TotalNeurons()
      ensures 0 <= DeltaStart(l) && DeltaStart(l) + Size(l) <= TotalNeurons() - inputs
    {
      LayersGrow(0, l);
      LayersGrow(l, hiddenLayers);
      LayoutEnd();
      if l < hiddenLayers {
        LayersGrow(l + 1, hiddenLayers);
      }
    }

    // -------------------------------------------------------------- every weight belongs to one connection

    /** Weight x is the weight of input k of neuron j of layer l; input 0 is the bias. */
    predicate Connects(x: int, l: nat, j: nat, k: nat) {
      Accepted() && l <= hiddenLayers && j < Size(l) && k <= Fan(l) && x == Slot(l, j) + k
    }

    lemma ConnectionIsUnique(x: int, l: nat, j: nat, k: nat, l': nat, j': nat, k': nat)
      requires Connects(x, l, j, k) && Connects(x, l', j', k')
      ensures l == l' && j == j' && k == k'
    {
      SlotInRange(l, j);
      SlotInRange(l', j');
      SlotsGrow(l, 0, j);
      SlotsGrow(l', 0, j');
      if l < l' {
        LayersGrow(l, l');
      } else if l' < l {
        LayersGrow(l', l);
      } else if j < j' {
        SlotsGrow(l, j, j');
      } else if j' < j {
        SlotsGrow(l, j', j);
      }
    }

    lemma {:induction false} FindNeuron(x: int, l: nat, n: nat) returns (j: nat)
      requires Accepted() && l <= hiddenLayers && n <= Size(l) && WeightStart(l) <= x < Slot(l, n)
      ensures j < n && Slot(l, j) <= x < Slot(l, j) + Fan(l) + 1
    {
      if x >= Slot(l, n - 1) {
        j := n - 1;
      } else {
        j := FindNeuron(x, l, n - 1);
      }
    }

    lemma {:induction false} FindLayer(x: int, m: nat) returns (l: nat)
      requires Accepted() && m <= hiddenLayers && 0 <= x < Slot(m, Size(m))
      ensures l <= m && WeightStart(l) <= x < Slot(l, Size(l))
    {
      if x >= WeightStart(m) {
        l := m;
      } else {
        l := FindLayer(x, m - 1);
      }
    }

    lemma ConnectionExists(x: int) returns (l: nat, j: nat, k: nat)
      requires Accepted() && 0 <= x < WeightsEnd()
      ensures Connects(x, l, j, k)
    {
      LayoutEnd();
      l := FindLayer(x, hiddenLayers);
      j := FindNeuron(x, l, Size(l));
      k := x - Slot(l, j);
    }
  }
}
