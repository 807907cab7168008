/**
 * The mutation operators and their cumulative selection table: raw weights
 * are normalised by their total and turned into prefix sums, in the order of
 * the operator enumeration. Doubles are modelled as exact reals.
 */
module OperatorTable {

  /** The operators of the mutation pass; End only marks the count. */
  datatype MutationOperator = Expression | Adjust | SubFunc | JumpFunc | Copy | End

  /** The enumerator's underlying integer value. */
  function Ordinal(op: MutationOperator): (i: nat)
    ensures i <= 5
    ensures op != End <==> i < 5
  {
    match op
    case Expression => 0
    case Adjust => 1
    case SubFunc => 2
    case JumpFunc => 3
    case Copy => 4
    case End => 5
  }

  /** The operator a selected table index is cast to. */
  function FromOrdinal(i: nat): (op: MutationOperator)
    ensures i <= 5 ==> Ordinal(op) == i
    ensures op != End <==> i < OPERATORS_SIZE
  {
    if i == 0 then Expression
    else if i == 1 then Adjust
    else if i == 2 then SubFunc
    else if i == 3 then JumpFunc
    else if i == 4 then Copy
    else End
  }

  /** One table entry per real operator: the ordinal of End. */
  const OPERATORS_SIZE: nat := Ordinal(End)

  /** The raw weights, in enumeration order EXPRESSION .. COPY. */
  const MUTATION_OPERATOR_WEIGHTS: seq<real> := [0.05, 0.1, 0.01, 0.15, 0.12]

  /**
   * The selection table of the mutation pass: one entry per real operator,
   * nondecreasing, within [0, 1] and ending at 1.
   */
  function MutationOperatorChances(): (table: seq<real>)
    ensures |table| == OPERATORS_SIZE
    ensures table[OPERATORS_SIZE - 1] == 1.0
    ensures forall i, j :: 0 <= i <= j < |table| ==> 0.0 <= table[i] <= table[j] <= 1.0
  {
    PrefixSums();
    WeightsTableShape();
    Aggregated(MUTATION_OPERATOR_WEIGHTS)
  }

  /** The shape of the table built from the five weights. */
  lemma WeightsTableShape()
    ensures SeqSum(MUTATION_OPERATOR_WEIGHTS) > 0.0
    ensures |Aggregated(MUTATION_OPERATOR_WEIGHTS)| == OPERATORS_SIZE
    ensures Aggregated(MUTATION_OPERATOR_WEIGHTS)[OPERATORS_SIZE - 1] == 1.0
    ensures forall i, j :: 0 <= i <= j < OPERATORS_SIZE ==>
              0.0 <= Aggregated(MUTATION_OPERATOR_WEIGHTS)[i] <= Aggregated(MUTATION_OPERATOR_WEIGHTS)[j] <= 1.0
  {
    var w := MUTATION_OPERATOR_WEIGHTS;
    PrefixSums();
    AggregatedEndsAtOne(w);
    forall i, j | 0 <= i <= j < OPERATORS_SIZE
      ensures 0.0 <= Aggregated(w)[i] <= Aggregated(w)[j] <= 1.0
    {
      AggregatedNondecreasing(w, i, j);
    }
  }

  /** The left-to-right total of the first n elements of s. */
  function PrefixSum(s: seq<real>, n: nat): real
    requires n <= |s|
  {
    if n == 0 then 0.0 else PrefixSum(s, n - 1) + s[n - 1]
  }

  /** The total of all elements of s. */
  function SeqSum(s: seq<real>): real
  {
    PrefixSum(s, |s|)
  }

  /** The prefix sums of nonnegative terms are nonnegative and grow with the prefix. */
  lemma {:induction false} PrefixSumMonotone(w: seq<real>, i: nat, j: nat)
    requires forall k :: 0 <= k < |w| ==> w[k] >= 0.0
    requires i <= j <= |w|
    ensures 0.0 <= PrefixSum(w, i) <= PrefixSum(w, j)
    decreases j
  {
    if i < j {
      PrefixSumMonotone(w, i, j - 1);
    } else if i > 0 {
      PrefixSumMonotone(w, 0, i - 1);
    }
  }

  /**
   * aggregate_array in exact arithmetic: entry k is the share of the first
   * k + 1 weights in the total.
   */
  function Aggregated(w: seq<real>): (table: seq<real>)
    requires SeqSum(w) != 0.0
    ensures |table| == |w|
  {
    seq(|w|, k requires 0 <= k < |w| => PrefixSum(w, k + 1) / SeqSum(w))
  }

  /** The last entry of the table is 1: the shares add up to the whole. */
  lemma AggregatedEndsAtOne(w: seq<real>)
    requires SeqSum(w) != 0.0 && |w| > 0
    ensures Aggregated(w)[|w| - 1] == 1.0
  {
    DivSelf(SeqSum(w));
  }

  /**
   * For nonnegative weights with a positive total the table is
   * nondecreasing and its entries lie in [0, 1].
   */
  lemma AggregatedNondecreasing(w: seq<real>, k: nat, l: nat)
    requires forall i :: 0 <= i < |w| ==> w[i] >= 0.0
    requires SeqSum(w) > 0.0
    requires k <= l < |w|
    ensures 0.0 <= Aggregated(w)[k] <= Aggregated(w)[l] <= 1.0
  {
    var total := SeqSum(w);
    PrefixSumMonotone(w, k + 1, l + 1);
    PrefixSumMonotone(w, l + 1, |w|);
    var a, b := PrefixSum(w, k + 1), PrefixSum(w, l + 1);
    assert 0.0 <= a <= b <= total;
    DivMonotone(0.0, a, total);
    DivMonotone(a, b, total);
    DivMonotone(b, total, total);
    DivSelf(total);
    assert Aggregated(w)[k] == a / total && Aggregated(w)[l] == b / total;
  }

  /** Dividing by a positive number keeps order. */
  lemma DivMonotone(a: real, b: real, t: real)
    requires t > 0.0 && a <= b
    ensures a / t <= b / t
  {
  }

  /** A nonzero number divided by itself is 1. */
  lemma DivSelf(t: real)
    requires t != 0.0
    ensures t / t == 1.0
  {
  }

  /** The next weight's share plus the running share is the next running share. */
  lemma StepShare(w: seq<real>, i: nat, t: real, prob: real, sumOfProb: real)
    requires i < |w| && t != 0.0
    requires prob == w[i] / t && sumOfProb == PrefixSum(w, i) / t
    ensures prob + sumOfProb == PrefixSum(w, i + 1) / t
  {
  }

  /** sum: adds the elements of the array from left to right. */
  method Sum(a: array<real>) returns (total: real)
    ensures total == SeqSum(a[..])
  {
    total := 0.0;
    for i := 0 to a.Length
      invariant total == PrefixSum(a[..], i)
    {
      total := total + a[i];
    }
  }

  /**
   * aggregate_array: fills an array with the weights, then overwrites each
   * entry in place with its normalised weight plus the running sum of the
   * normalised weights before it.
   */
  method AggregateArray(weights: seq<real>) returns (table: seq<real>)
    requires SeqSum(weights) != 0.0
    ensures table == Aggregated(weights)
  {
    var data := new real[|weights|](i requires 0 <= i < |weights| => weights[i]);
    var totalProb := Sum(data);
    assert data[..] == weights;
    var sumOfProb := 0.0;
    for i := 0 to data.Length
      invariant forall j :: 0 <= j < i ==> data[j] == Aggregated(weights)[j]
      invariant forall j :: i <= j < data.Length ==> data[j] == weights[j]
      invariant sumOfProb == PrefixSum(weights, i) / totalProb
    {
      var prob := data[i] / totalProb;
      StepShare(weights, i, totalProb, prob, sumOfProb);
      data[i] := prob + sumOfProb;
      sumOfProb := sumOfProb + prob;
    }
    table := data[..];
  }

  /** The running totals of the weights; they sum to 0.43. */
  lemma {:induction false} PrefixSums()
    ensures PrefixSum(MUTATION_OPERATOR_WEIGHTS, 1) == 0.05
    ensures PrefixSum(MUTATION_OPERATOR_WEIGHTS, 2) == 0.15
    ensures PrefixSum(MUTATION_OPERATOR_WEIGHTS, 3) == 0.16
    ensures PrefixSum(MUTATION_OPERATOR_WEIGHTS, 4) == 0.31
    ensures SeqSum(MUTATION_OPERATOR_WEIGHTS) == 0.43
  {
    var w := MUTATION_OPERATOR_WEIGHTS;
    assert PrefixSum(w, 0) == 0.0;
    assert PrefixSum(w, 1) == 0.05;
    assert PrefixSum(w, 2) == 0.15;
    assert PrefixSum(w, 3) == 0.16;
    assert PrefixSum(w, 4) == 0.31;
    assert PrefixSum(w, 5) == 0.43;
  }

  /**
   * The code divides by the weights' total 0.43, so the table holds
   * 5/43, 15/43, 16/43, 31/43 and 1: one entry per real operator,
   * nondecreasing and ending at 1.
   */
  lemma {:induction false} MutationOperatorChancesValues()
    ensures OPERATORS_SIZE == 5
    ensures MutationOperatorChances() == [5.0 / 43.0, 15.0 / 43.0, 16.0 / 43.0, 31.0 / 43.0, 1.0]
  {
    PrefixSums();
  }
}
