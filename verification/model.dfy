/**
  The Q-function side: arg-max and max over value vectors, transitions and
  their column (batched) form, the Bellman target update of one training
  step, and the shape of the two-layer network. The network is an abstract
  function from a state vector to one real value per action; weights,
  loss and optimiser are not modelled.
 */
module QModel {

  /** Feature-vector length, hidden width and number of actions. */
  const InputSize: int := 11
  const HiddenSize: int := 256
  const OutputSize: int := 3

  /** One remembered step: state, one-hot action, reward, next state, terminal flag. */
  datatype Transition = Transition(
    state: seq<int>,
    action: seq<int>,
    reward: int,
    nextState: seq<int>,
    done: bool)

  /** An estimate of action values for a state vector. */
  type QFunction = seq<int> -> seq<real>

  /** Index of the first largest entry, as `argmax` reports it. */
  function ArgMax(s: seq<real>): (i: nat)
    requires |s| > 0
    ensures i < |s|
    ensures forall j :: 0 <= j < |s| ==> s[j] <= s[i]
    ensures forall j :: 0 <= j < i ==> s[j] < s[i]
  {
    if |s| == 1 then 0
    else
      var k := ArgMax(s[..|s| - 1]);
      if s[|s| - 1] > s[k] then |s| - 1 else k
  }

  /** The largest entry. */
  function Max(s: seq<real>): (m: real)
    requires |s| > 0
    ensures forall j :: 0 <= j < |s| ==> s[j] <= m
    ensures exists j :: 0 <= j < |s| && s[j] == m
  {
    if |s| == 1 then s[0]
    else
      var m := Max(s[..|s| - 1]);
      assert forall j :: 0 <= j < |s| - 1 ==> s[..|s| - 1][j] == s[j];
      if s[|s| - 1] > m then s[|s| - 1] else m
  }

  /** The maximum is the value at the arg-max. */
  lemma MaxAtArgMax(s: seq<real>)
    requires |s| > 0
    ensures Max(s) == s[ArgMax(s)]
  {
  }

  /** An integer vector read as reals, as the tensors do. */
  function AsReals(s: seq<int>): (r: seq<real>)
    ensures |r| == |s|
    ensures forall i, j :: 0 <= i < |s| && 0 <= j < |s| ==> (r[i] <= r[j] <==> s[i] <= s[j])
  {
    seq(|s|, i requires 0 <= i < |s| => s[i] as real)
  }

  /** The action index a one-hot action vector selects. */
  function ActionIndex(action: seq<int>): (i: nat)
    requires |action| > 0
    ensures i < |action|
    ensures forall j :: 0 <= j < |action| ==> action[j] <= action[i]
    ensures forall j :: 0 <= j < i ==> action[j] < action[i]
  {
    ArgMax(AsReals(action))
  }

  /** A batch in column form: one sequence per transition field. */
  datatype Columns = Columns(
    states: seq<seq<int>>,
    actions: seq<seq<int>>,
    rewards: seq<int>,
    nextStates: seq<seq<int>>,
    dones: seq<bool>)

  /** All five columns have the batch length. */
  predicate Rectangular(c: Columns) {
    var n := |c.dones|;
    |c.states| == n && |c.actions| == n && |c.rewards| == n && |c.nextStates| == n
  }

  function BatchSizeOf(c: Columns): nat {
    |c.dones|
  }

  /** Transpose a list of transitions into columns (`zip(*batch)`). */
  function Unzip(b: seq<Transition>): (c: Columns)
    ensures Rectangular(c) && BatchSizeOf(c) == |b|
  {
    Columns(
      seq(|b|, k requires 0 <= k < |b| => b[k].state),
      seq(|b|, k requires 0 <= k < |b| => b[k].action),
      seq(|b|, k requires 0 <= k < |b| => b[k].reward),
      seq(|b|, k requires 0 <= k < |b| => b[k].nextState),
      seq(|b|, k requires 0 <= k < |b| => b[k].done))
  }

  /** Transpose columns back into transitions. */
  function Zip(c: Columns): (b: seq<Transition>)
    requires Rectangular(c)
    ensures |b| == BatchSizeOf(c)
  {
    seq(|c.dones|, k requires 0 <= k < |c.dones| =>
      Transition(c.states[k], c.actions[k], c.rewards[k], c.nextStates[k], c.dones[k]))
  }

  /** Transposing a batch loses nothing. */
  lemma ZipUnzip(b: seq<Transition>)
    ensures Zip(Unzip(b)) == b
  {
    var z := Zip(Unzip(b));
    assert |z| == |b|;
    forall k | 0 <= k < |b|
      ensures z[k] == b[k]
    {
    }
  }

  lemma UnzipZip(c: Columns)
    requires Rectangular(c)
    ensures Unzip(Zip(c)) == c
  {
    var u := Unzip(Zip(c));
    assert u.states == c.states;
    assert u.actions == c.actions;
    assert u.rewards == c.rewards;
    assert u.nextStates == c.nextStates;
    assert u.dones == c.dones;
  }

  /** What a training step receives: one transition, or a batch in column form. */
  datatype TrainInput = Single(t: Transition) | Batched(columns: Columns)

  predicate WellShapedInput(input: TrainInput) {
    input.Batched? ==> Rectangular(input.columns)
  }

  /** A single transition becomes a batch of one; a batch is kept as it is. */
  function Lift(input: TrainInput): (c: Columns)
    requires WellShapedInput(input)
    ensures Rectangular(c)
    ensures input.Single? ==> BatchSizeOf(c) == 1 && c == Unzip([input.t])
    ensures input.Batched? ==> c == input.columns
  {
    match input
    case Single(t) =>
      var c := Columns([t.state], [t.action], [t.reward], [t.nextState], [t.done]);
      assert c == Unzip([t]);
      c
    case Batched(c) => c
  }

  /** The network's output has one value per action for every state. */
  ghost predicate ActionValued(q: QFunction) {
    forall s :: |q(s)| == OutputSize
  }

  /** Every action in the batch is non-empty and selects one of the predicted values. */
  predicate ActionsFit(c: Columns, pred: seq<seq<real>>)
    requires Rectangular(c) && |pred| == BatchSizeOf(c)
  {
    forall k :: 0 <= k < |pred| ==> |c.actions[k]| > 0 && ActionIndex(c.actions[k]) < |pred[k]|
  }

  /**
    Build the training target from the prediction: a copy of `pred` in which,
    for each row, only the taken action's entry is replaced, by the reward on
    a terminal transition and by reward + gamma * max Q(next state) otherwise.
   */
  method BuildTargets(pred: seq<seq<real>>, c: Columns, gamma: real, q: QFunction)
    returns (target: seq<seq<real>>)
    requires Rectangular(c) && |pred| == BatchSizeOf(c)
    requires ActionsFit(c, pred)
    requires forall k :: 0 <= k < |pred| ==> |q(c.nextStates[k])| > 0
    ensures |target| == |pred|
    ensures forall k :: 0 <= k < |pred| ==> target[k] == pred[k][ActionIndex(c.actions[k]) := Bellman(c, k, gamma, q)]
    ensures forall k :: 0 <= k < |pred| ==> |target[k]| == |pred[k]|
    ensures forall k, j :: 0 <= k < |pred| && 0 <= j < |pred[k]| && j != ActionIndex(c.actions[k]) ==>
              target[k][j] == pred[k][j]
    ensures forall k :: 0 <= k < |pred| && c.dones[k] ==>
              target[k][ActionIndex(c.actions[k])] == c.rewards[k] as real
    ensures forall k :: 0 <= k < |pred| && !c.dones[k] ==>
              target[k][ActionIndex(c.actions[k])] == c.rewards[k] as real + gamma * Max(q(c.nextStates[k]))
  {
    target := pred;
    var idx := 0;
    while idx < |c.dones|
      invariant 0 <= idx <= |c.dones|
      invariant |target| == |pred|
      invariant forall k :: idx <= k < |pred| ==> target[k] == pred[k]
      invariant forall k :: 0 <= k < idx ==> target[k] == pred[k][ActionIndex(c.actions[k]) := Bellman(c, k, gamma, q)]
    {
      var a := ActionIndex(c.actions[idx]);
      target := target[idx := target[idx][a := Bellman(c, idx, gamma, q)]];
      idx := idx + 1;
    }
  }

  /** The value a row's taken action is trained toward. */
  function Bellman(c: Columns, k: nat, gamma: real, q: QFunction): real
    requires Rectangular(c) && k < BatchSizeOf(c)
    requires |q(c.nextStates[k])| > 0
  {
    if c.dones[k] then c.rewards[k] as real else c.rewards[k] as real + gamma * Max(q(c.nextStates[k]))
  }

  /** Every action vector of the input is non-empty and selects one of the network's outputs. */
  predicate ActionsSelectOutput(input: TrainInput)
    requires WellShapedInput(input)
  {
    match input
    case Single(t) => |t.action| > 0 && ActionIndex(t.action) < OutputSize
    case Batched(c) =>
      forall k :: 0 <= k < BatchSizeOf(c) ==> |c.actions[k]| > 0 && ActionIndex(c.actions[k]) < OutputSize
  }

  /**
    One training step up to the loss: lift the input to a batch, predict
    Q values for every state, and build the target. A single transition
    yields exactly one row.
   */
  method TrainStep(input: TrainInput, gamma: real, q: QFunction)
    returns (pred: seq<seq<real>>, target: seq<seq<real>>)
    requires WellShapedInput(input) && ActionValued(q)
    requires ActionsSelectOutput(input)
    ensures |pred| == |target| == BatchSizeOf(Lift(input))
    ensures input.Single? ==> |target| == 1
    ensures forall k :: 0 <= k < |pred| ==> pred[k] == q(Lift(input).states[k])
    ensures forall k :: 0 <= k < |pred| ==> |target[k]| == OutputSize
    ensures forall k :: 0 <= k < |target| ==>
              target[k] == pred[k][ActionIndex(Lift(input).actions[k]) := Bellman(Lift(input), k, gamma, q)]
    ensures input.Single? && !input.t.done ==>
              && target[0][ActionIndex(input.t.action)] == input.t.reward as real + gamma * Max(q(input.t.nextState))
              && forall j :: 0 <= j < OutputSize && j != ActionIndex(input.t.action) ==> target[0][j] == q(input.t.state)[j]
    ensures input.Single? && input.t.done ==>
              && target[0][ActionIndex(input.t.action)] == input.t.reward as real
              && forall j :: 0 <= j < OutputSize && j != ActionIndex(input.t.action) ==> target[0][j] == q(input.t.state)[j]
  {
    var c := Lift(input);
    pred := seq(BatchSizeOf(c), k requires 0 <= k < BatchSizeOf(c) => q(c.states[k]));
    target := BuildTargets(pred, c, gamma, q);
  }

  /** One affine layer: `weights` has one row of input weights per output. */
  datatype Layer = Layer(weights: seq<seq<real>>, bias: seq<real>)

  predicate Shaped(l: Layer, inputs: int, outputs: int) {
    && |l.weights| == outputs && |l.bias| == outputs
    && forall i :: 0 <= i < outputs ==> |l.weights[i]| == inputs
  }

  datatype Net = Net(linear1: Layer, linear2: Layer)

  /** The 11 -> 256 -> 3 network shape. */
  predicate NetShaped(n: Net) {
    Shaped(n.linear1, InputSize, HiddenSize) && Shaped(n.linear2, HiddenSize, OutputSize)
  }

  function Dot(u: seq<real>, v: seq<real>): real
    requires |u| == |v|
  {
    if |u| == 0 then 0.0 else Dot(u[..|u| - 1], v[..|v| - 1]) + u[|u| - 1] * v[|v| - 1]
  }

  function Affine(l: Layer, x: seq<real>): (r: seq<real>)
    requires Shaped(l, |x|, |l.bias|)
    ensures |r| == |l.bias|
  {
    seq(|l.bias|, i requires 0 <= i < |l.bias| => Dot(l.weights[i], x) + l.bias[i])
  }

  /** Rectified linear unit: the least non-negative upper bound of each entry. */
  function Relu(x: seq<real>): (r: seq<real>)
    ensures |r| == |x|
    ensures forall i :: 0 <= i < |x| ==> r[i] >= 0.0 && r[i] >= x[i] && (r[i] == x[i] || r[i] == 0.0)
  {
    seq(|x|, i requires 0 <= i < |x| => if x[i] > 0.0 then x[i] else 0.0)
  }

  lemma ReluIdempotent(x: seq<real>)
    ensures Relu(Relu(x)) == Relu(x)
  {
    var r := Relu(x);
    forall i | 0 <= i < |x|
      ensures Relu(r)[i] == r[i]
    {
    }
  }

  /** The hidden activations: linear1 then ReLU. */
  function Hidden(n: Net, x: seq<real>): (h: seq<real>)
    requires NetShaped(n) && |x| == InputSize
    ensures |h| == HiddenSize
    ensures forall i :: 0 <= i < HiddenSize ==> h[i] >= 0.0
  {
    Relu(Affine(n.linear1, x))
  }

  /** The forward pass: linear1, ReLU, linear2; one value per action. */
  function Forward(n: Net, x: seq<real>): (r: seq<real>)
    requires NetShaped(n) && |x| == InputSize
    ensures |r| == OutputSize
  {
    Affine(n.linear2, Hidden(n, x))
  }
}
