/**
 * The custom genetic operators of the image evolver: a mutation pass that
 * walks a copy of the parent tree node by node and applies one of five
 * mutation operators to the nodes it selects, and a crossover that defers to
 * the library's own.
 *
 * Random draws, the library's subtree regeneration (`mutate_point`) and the
 * library's crossover are not part of this model; they enter as function
 * parameters.
 */
module Transformer {
  import opened Config
  import opened OperatorTable
  import opened ValueStack

  /** The value of a tree: its operation sequence and its value stack. */
  datatype TreeData = TreeData(ops: seq<Node>, values: seq<Value>)

  /** What the library's `mutate_point` leaves: the rewritten tree and how many nodes to skip. */
  datatype Rewrite = Rewrite(tree: TreeData, skip: nat)

  /**
   * The random source, draw by draw: each function gives the draw made at
   * visit n of the mutation pass.
   */
  datatype Random = Random(
    choice: (nat, real) -> bool,      // choice(p): true with probability p
    unit: nat -> real,                // get_double()
    coin: nat -> bool,                // choice(): a fair coin
    u64: (nat, U64, U64) -> U64,      // get_u64(lo, hi)
    literal: nat -> real,             // the float literal terminal's value
    staticImage: nat -> seq<real>     // the image of a static image terminal
  )

  /** The image terminals produce whole images. */
  ghost predicate ImagesWellFormed(rng: Random)
  {
    forall n :: |rng.staticImage(n)| == DATA_CHANNELS_SIZE
  }

  /**
   * What the mutation pass relies on from `mutate_point`: it leaves a
   * consistent tree, and the nodes after the skipped ones are no more than
   * the nodes after the cursor were before.
   */
  ghost predicate ExpressionContract(mutatePoint: (nat, TreeData, nat) -> Rewrite)
  {
    forall n: nat, t: TreeData, c: nat ::
      Consistent(t.ops, t.values) && c < |t.ops| ==>
        Consistent(mutatePoint(n, t, c).tree.ops, mutatePoint(n, t, c).tree.values) &&
        |mutatePoint(n, t, c).tree.ops| <= |t.ops| + mutatePoint(n, t, c).skip
  }

  /** The base mutation chance of a node, before scaling by the tree size. */
  const PER_NODE_MUTATION_CHANCE: real := 1.0

  /** The chance that a node is mutated in a tree of n nodes. */
  function NodeChance(n: nat): (p: real)
    ensures n > 0 ==> p * (n as real) == PER_NODE_MUTATION_CHANCE
    ensures n > 0 ==> 0.0 < p <= 1.0
  {
    if n == 0 then 0.0 else PER_NODE_MUTATION_CHANCE * (1.0 / n as real)
  }

  /** The largest U64 plus one; u64 arithmetic wraps around at this value. */
  const U64_LIMIT: nat := 0x1_0000_0000_0000_0000

  // ---------------------------------------------------------------------
  // Operator selection

  /**
   * Entry i of the cumulative table claims the draw: the first entry every
   * draw up to it, a later entry the draws above its predecessor up to it.
   */
  predicate Claims(chances: seq<real>, i: nat, choice: real)
    requires i < |chances|
  {
    if i == 0 then choice <= chances[0] else chances[i - 1] < choice <= chances[i]
  }

  /** A table that never decreases. */
  predicate Nondecreasing(chances: seq<real>)
  {
    forall k, l :: 0 <= k <= l < |chances| ==> chances[k] <= chances[l]
  }

  /**
   * The first entry at or after position from that claims the draw, or
   * |chances| when none does.
   */
  function FirstClaim(chances: seq<real>, choice: real, from: nat): (i: nat)
    requires from <= |chances|
    ensures from <= i <= |chances|
    ensures i < |chances| ==> Claims(chances, i, choice)
    ensures forall k :: from <= k < i ==> !Claims(chances, k, choice)
    decreases |chances| - from
  {
    if from == |chances| then from
    else if Claims(chances, from, choice) then from
    else FirstClaim(chances, choice, from + 1)
  }

  /** An entry that claims the draw, with no claiming entry before it, is the first claim. */
  lemma FirstClaimIs(chances: seq<real>, choice: real, i: nat)
    requires i < |chances| && Claims(chances, i, choice)
    requires forall k :: 0 <= k < i ==> !Claims(chances, k, choice)
    ensures FirstClaim(chances, choice, 0) == i
  {
  }

  /**
   * The operator selection of the mutation pass: scans the cumulative table
   * in order and takes the first entry that claims the draw, COPY if none
   * does.
   */
  method SelectOperator(chances: seq<real>, choice: real) returns (selected: nat)
    ensures var first := FirstClaim(chances, choice, 0);
            selected == if first < |chances| then first else Ordinal(Copy)
    ensures FromOrdinal(selected) == TableOperator(chances, choice)
    ensures |chances| <= OPERATORS_SIZE ==> FromOrdinal(selected) != End
  {
    selected := Ordinal(Copy);
    for index := 0 to |chances|
      invariant selected == Ordinal(Copy)
      invariant forall i :: 0 <= i < index ==> !Claims(chances, i, choice)
    {
      if index == 0 {
        if choice <= chances[index] {
          FirstClaimIs(chances, choice, index);
          selected := index;
          return;
        }
      } else {
        if choice > chances[index - 1] && choice <= chances[index] {
          FirstClaimIs(chances, choice, index);
          selected := index;
          return;
        }
      }
    }
  }

  /** In a nondecreasing table at most one entry claims a draw. */
  lemma ClaimsUnique(chances: seq<real>, i: nat, j: nat, choice: real)
    requires Nondecreasing(chances)
    requires i < |chances| && j < |chances|
    requires Claims(chances, i, choice) && Claims(chances, j, choice)
    ensures i == j
  {
  }

  /**
   * In a table whose entries do not decrease, every draw up to its last
   * entry is claimed by some entry: the first entry that is at least the
   * draw.
   */
  lemma {:induction false} ClaimsCover(chances: seq<real>, choice: real)
    requires |chances| > 0 && choice <= chances[|chances| - 1]
    ensures exists i :: 0 <= i < |chances| && Claims(chances, i, choice)
    decreases |chances|
  {
    if |chances| > 1 && choice <= chances[|chances| - 2] {
      ClaimsCover(chances[..|chances| - 1], choice);
      var i :| 0 <= i < |chances| - 1 && Claims(chances[..|chances| - 1], i, choice);
      assert Claims(chances, i, choice);
    } else if |chances| > 1 {
      assert Claims(chances, |chances| - 1, choice);
    } else {
      assert Claims(chances, 0, choice);
    }
  }

  /**
   * With the mutation pass's own table, every draw in [0, 1] is claimed by
   * exactly one operator, so the COPY fallback is never taken for such a
   * draw; draws above 1 fall back to COPY.
   */
  lemma OperatorTableSelection(choice: real)
    ensures 0.0 <= choice <= 1.0 ==>
              exists i :: 0 <= i < OPERATORS_SIZE && Claims(MutationOperatorChances(), i, choice)
    ensures forall i, j ::
              (0 <= i < OPERATORS_SIZE && 0 <= j < OPERATORS_SIZE &&
               Claims(MutationOperatorChances(), i, choice) && Claims(MutationOperatorChances(), j, choice)) ==> i == j
    ensures choice > 1.0 ==>
              forall i :: 0 <= i < OPERATORS_SIZE ==> !Claims(MutationOperatorChances(), i, choice)
  {
    MutationOperatorChancesValues();
    var chances := MutationOperatorChances();
    assert Nondecreasing(chances);
    if 0.0 <= choice <= 1.0 {
      ClaimsCover(chances, choice);
    }
    forall i, j | 0 <= i < OPERATORS_SIZE && 0 <= j < OPERATORS_SIZE &&
                  Claims(chances, i, choice) && Claims(chances, j, choice)
      ensures i == j
    {
      ClaimsUnique(chances, i, j, choice);
    }
  }

  // ---------------------------------------------------------------------
  // ADJUST on a value node

  /** The average of two floats, as the blend of ADJUST computes it. */
  function Average(a: real, b: real): (r: real)
    ensures a <= b ==> a <= r <= b
    ensures b <= a ==> b <= r <= a
    ensures a == b ==> r == a
  {
    (a + b) / 2.0
  }

  /**
   * The image ADJUST blend: each element becomes the average of the old
   * element and the adjustment's, in place.
   */
  method BlendImage(image: seq<real>, adjustment: seq<real>) returns (blended: seq<real>)
    requires |image| == DATA_CHANNELS_SIZE && |adjustment| == DATA_CHANNELS_SIZE
    ensures |blended| == DATA_CHANNELS_SIZE
    ensures forall i :: 0 <= i < DATA_CHANNELS_SIZE ==> blended[i] == Average(image[i], adjustment[i])
  {
    var data := new real[DATA_CHANNELS_SIZE](i requires 0 <= i < DATA_CHANNELS_SIZE => image[i]);
    for index := 0 to DATA_CHANNELS_SIZE
      invariant forall i :: 0 <= i < index ==> data[i] == Average(image[i], adjustment[i])
      invariant forall i :: index <= i < DATA_CHANNELS_SIZE ==> data[i] == image[i]
    {
      data[index] := data[index] + adjustment[index];
      data[index] := data[index] / 2.0;
    }
    blended := data[..];
  }

  /** The value ADJUST writes into a value slot at visit n. */
  function Adjusted(v: Value, rng: Random, n: nat, u64Min: U64, u64Max: U64): (r: Value)
    requires WellFormed(v) && ImagesWellFormed(rng)
    ensures SizeOf(r) == SizeOf(v) && WellFormed(r)
  {
    match v
    case FloatVal(f) => FloatVal(Average(f, rng.literal(n)))
    case U64Val(x) =>
      if rng.coin(n) then U64Val(rng.u64(n, x, u64Max))
      else U64Val(rng.u64(n, u64Min, (x + 1) % U64_LIMIT))
    case ImageVal(p) =>
      ImageVal(seq(DATA_CHANNELS_SIZE, i requires 0 <= i < DATA_CHANNELS_SIZE => Average(p[i], rng.staticImage(n)[i])))
  }

  /**
   * The slot rewrite of ADJUST, dispatched on the node's type size: 4 bytes
   * is a float, 8 bytes a u64 and every other size an image.
   */
  method AdjustValue(typeSize: nat, val: Value, rng: Random, n: nat, u64Min: U64, u64Max: U64)
    returns (adjusted: Value)
    requires SizeOf(val) == typeSize && WellFormed(val) && ImagesWellFormed(rng)
    ensures adjusted == Adjusted(val, rng, n, u64Min, u64Max)
  {
    if typeSize == FLOAT_BYTES {
      adjusted := FloatVal(Average(val.f, rng.literal(n)));
    } else if typeSize == U64_BYTES {
      if rng.coin(n) {
        adjusted := U64Val(rng.u64(n, val.n, u64Max));
      } else {
        adjusted := U64Val(rng.u64(n, u64Min, (val.n + 1) % U64_LIMIT));
      }
    } else {
      var blended := BlendImage(val.pixels, rng.staticImage(n));
      adjusted := ImageVal(blended);
    }
  }

  /** The new float value lies between the old value and the literal drawn. */
  lemma AdjustedFloatBetween(f: real, rng: Random, n: nat, u64Min: U64, u64Max: U64)
    requires ImagesWellFormed(rng)
    ensures var r := Adjusted(FloatVal(f), rng, n, u64Min, u64Max).f;
            (f <= rng.literal(n) ==> f <= r <= rng.literal(n)) &&
            (rng.literal(n) <= f ==> rng.literal(n) <= r <= f)
  {
  }

  // ---------------------------------------------------------------------
  // The tree being edited

  /** `tree_t`: an operation sequence and a value stack, edited in place. */
  class Tree {
    var ops: seq<Node>
    var values: seq<Value>

    ghost predicate Valid()
      reads this
    {
      Consistent(ops, values)
    }

    function Data(): TreeData
      reads this
    {
      TreeData(ops, values)
    }

    /** `tree_t c = p`: a deep copy of another tree. */
    constructor Clone(p: Tree)
      ensures Data() == p.Data()
    {
      ops, values := p.ops, p.values;
    }

    /**
     * `bytes_from_head` of node c: the aligned sizes of the value nodes
     * after c, summed from c + 1 to the end. On a consistent tree it is the
     * offset from the top of the stack of c's own slot; for the last node
     * it is 0.
     */
    method BytesFromHead(c: nat) returns (bytes: nat)
      requires c < |ops|
      ensures bytes == BytesFrom(ops, c + 1)
      ensures c == |ops| - 1 ==> bytes == 0
      ensures Valid() && ops[c].isValue ==> FromHead(values, bytes) == Some(ValuesBefore(ops, c))
    {
      bytes := 0;
      var it := c + 1;
      while it != |ops|
        invariant c + 1 <= it <= |ops|
        invariant bytes + BytesFrom(ops, it) == BytesFrom(ops, c + 1)
      {
        bytes := bytes + (if ops[it].isValue then AlignedSize(ops[it].typeSize) else 0);
        it := it + 1;
      }
      if Valid() && ops[c].isValue {
        BytesFromHeadLocatesSlot(ops, values, c);
      }
    }

    /**
     * ADJUST at node c, visit n. A function node is left alone. A value
     * node's slot, found `bytes_from_head` bytes below the top of the
     * stack, is rewritten by type size: a float is averaged with a fresh
     * literal, a u64 is redrawn from [old, u64Max] or [u64Min, old + 1] by a
     * coin flip, anything else is an image averaged element by element
     * with a static image terminal. The operation sequence and every other
     * slot stay as they were.
     */
    method Adjust(c: nat, rng: Random, n: nat, u64Min: U64, u64Max: U64)
      requires Valid() && c < |ops| && ImagesWellFormed(rng)
      modifies this
      ensures Valid()
      ensures ops == old(ops)
      ensures !ops[c].isValue ==> values == old(values)
      ensures ops[c].isValue ==>
                var k := ValuesBefore(ops, c);
                k < |values| &&
                values == old(values)[k := Adjusted(old(values)[k], rng, n, u64Min, u64Max)]
    {
      var node := ops[c];
      if node.isValue {
        var bytesFromHead := BytesFromHead(c);
        BytesFromHeadLocatesSlot(ops, values, c);
        var k := FromHead(values, bytesFromHead).value;
        var adjusted := AdjustValue(node.typeSize, values[k], rng, n, u64Min, u64Max);
        ReplaceSlotKeepsConsistent(ops, values, k, adjusted);
        values := values[k := adjusted];
      }
    }
  }

  // ---------------------------------------------------------------------
  // The mutation pass

  /**
   * One visit of the mutation pass: the cursor, the chance with which the
   * node was selected, the operator applied (None if the node was not
   * selected) and the nodes skipped after it.
   */
  datatype Visit = Visit(cursor: nat, chance: real, op: Option<MutationOperator>, skip: nat)

  /**
   * The operator the table selects for a draw: the first entry that claims
   * it, or COPY when no entry does.
   */
  function TableOperator(chances: seq<real>, choice: real): (op: MutationOperator)
    ensures |chances| <= OPERATORS_SIZE ==> op != End
    ensures |chances| <= OPERATORS_SIZE ==>
              || (Ordinal(op) < |chances| && Claims(chances, Ordinal(op), choice) &&
                  forall k :: 0 <= k < Ordinal(op) ==> !Claims(chances, k, choice))
              || (op == Copy && forall k :: 0 <= k < |chances| ==> !Claims(chances, k, choice))
  {
    var i := FirstClaim(chances, choice, 0);
    FromOrdinal(if i < |chances| then i else Ordinal(Copy))
  }

  /**
   * Visit n follows the random draws: the node is selected exactly when
   * the chance draw succeeds, and then gets the operator the table selects
   * for the unit draw.
   */
  predicate FollowsDraws(v: Visit, n: nat, rng: Random)
  {
    && (v.op.None? <==> !rng.choice(n, v.chance))
    && (v.op.Some? ==> v.op.value == TableOperator(MutationOperatorChances(), rng.unit(n)))
  }

  /** The cursor starts at 0 and moves past each visited node and what it skipped. */
  predicate CursorAdvances(visits: seq<Visit>)
  {
    && (|visits| > 0 ==> visits[0].cursor == 0)
    && forall j :: 0 < j < |visits| ==> visits[j].cursor == visits[j - 1].cursor + 1 + visits[j - 1].skip
  }

  /** No visit applied the given operator. */
  predicate NeverApplied(visits: seq<Visit>, op: MutationOperator)
  {
    forall j :: 0 <= j < |visits| ==> visits[j].op != Some(op)
  }

  /** The cursor just after the visits. */
  function CursorAfter(visits: seq<Visit>): nat
  {
    if visits == [] then 0 else visits[|visits| - 1].cursor + 1 + visits[|visits| - 1].skip
  }

  /** Two stacks whose slots hold values of the same types. */
  predicate SameSlotTypes(a: seq<Value>, b: seq<Value>)
  {
    |a| == |b| && forall k :: 0 <= k < |a| ==> SizeOf(a[k]) == SizeOf(b[k])
  }

  /**
   * image_mutation_t::apply. The child starts as a copy of the parent; the
   * pass walks the child's operation sequence, re-reading its length at
   * every step. Each node is selected with the chance computed once from
   * the parent's size; a selected node gets the operator its table draw
   * selects. EXPRESSION hands the child to `mutate_point` and skips the
   * nodes it reports; ADJUST rewrites a value slot; SUB_FUNC, JUMP_FUNC and
   * COPY do nothing.
   */
  method Mutate(parent: Tree, rng: Random, mutatePoint: (nat, TreeData, nat) -> Rewrite, u64Min: U64, u64Max: U64)
    returns (child: Tree, ghost visits: seq<Visit>, ghost trees: seq<TreeData>)
    requires parent.Valid() && ImagesWellFormed(rng) && ExpressionContract(mutatePoint)
    ensures fresh(child) && child.Valid()
    ensures parent.Data() == old(parent.Data())
    ensures Trace(trees, visits, rng, mutatePoint, u64Min, u64Max)
    ensures trees[0] == parent.Data() && trees[|visits|] == child.Data()
    ensures CursorAdvances(visits) && CursorAfter(visits) >= |child.ops|
    ensures forall j :: 0 <= j < |visits| ==> Recorded(visits[j], j, rng, NodeChance(|parent.ops|))
    ensures NeverApplied(visits, Expression) ==>
              child.ops == parent.ops && SameSlotTypes(child.values, parent.values) &&
              |visits| == |parent.ops| && forall j :: 0 <= j < |visits| ==> visits[j].cursor == j
    ensures NeverApplied(visits, Expression) ==>
              SlotsFollowVisits(parent.Data(), child.values, visits, rng, u64Min, u64Max)
    ensures NeverApplied(visits, Expression) && NoValueAdjusted(visits, parent.ops) ==> child.Data() == parent.Data()
  {
    ghost var original := parent.Data();
    child := new Tree.Clone(parent);
    var nodeMutationChance := NodeChance(|child.ops|);
    visits, trees := [], [original];
    PassInit(original, nodeMutationChance, rng, mutatePoint, u64Min, u64Max);
    var cNode := 0;
    var n := 0;
    while cNode < |child.ops|
      invariant fresh(child) && child.Valid()
      invariant cNode == CursorAfter(visits) && n == |visits|
      invariant PassInvariant(original, child.Data(), visits, trees, nodeMutationChance, rng, mutatePoint, u64Min, u64Max)
      decreases |child.ops| - cNode
    {
      ghost var before := child.Data();
      var visit := MutateNode(child, cNode, n, nodeMutationChance, rng, mutatePoint, u64Min, u64Max);
      PassStep(original, before, child.Data(), visits, trees, visit, nodeMutationChance, rng, mutatePoint, u64Min, u64Max);
      visits, trees := visits + [visit], trees + [child.Data()];
      cNode, n := cNode + visit.skip + 1, n + 1;
    }
    PassDone(original, child.Data(), visits, trees, nodeMutationChance, rng, mutatePoint, u64Min, u64Max);
  }

  /**
   * What the mutation pass keeps about its visits so far, with the child
   * now in state now: the cursor moved as the visits say, every visit
   * followed the draws, and the trace runs from the parent to now. While
   * EXPRESSION has not run, visit j sat at node j, the operation sequence
   * and the slot types are the parent's, each value slot holds what
   * SlotAfter says, and without ADJUST on a value node now is the parent.
   */
  predicate PassInvariant(original: TreeData, now: TreeData, visits: seq<Visit>, trees: seq<TreeData>, chance: real,
                          rng: Random, mutatePoint: (nat, TreeData, nat) -> Rewrite, u64Min: U64, u64Max: U64)
    requires ImagesWellFormed(rng) && Consistent(original.ops, original.values)
  {
    && CursorAdvances(visits)
    && (forall j :: 0 <= j < |visits| ==> Recorded(visits[j], j, rng, chance))
    && Trace(trees, visits, rng, mutatePoint, u64Min, u64Max)
    && trees[0] == original && trees[|visits|] == now
    && UntilExpression(original, now, visits, rng, u64Min, u64Max)
  }

  /**
   * The part of PassInvariant that holds while EXPRESSION has not run:
   * visit j sat at node j, the operation sequence and the slot types are
   * the parent's, each value slot holds what SlotAfter says, and without
   * ADJUST on a value node now is the parent.
   */
  predicate UntilExpression(original: TreeData, now: TreeData, visits: seq<Visit>,
                            rng: Random, u64Min: U64, u64Max: U64)
    requires ImagesWellFormed(rng) && Consistent(original.ops, original.values)
  {
    && (NeverApplied(visits, Expression) ==>
          && now.ops == original.ops && SameSlotTypes(now.values, original.values)
          && CursorAfter(visits) == |visits| <= |now.ops|
          && (forall j :: 0 <= j < |visits| ==> visits[j].cursor == j)
          && SlotsFollowVisits(original, now.values, visits, rng, u64Min, u64Max))
    && (NeverApplied(visits, Expression) && NoValueAdjusted(visits, original.ops) ==> now == original)
  }

  /** One visit without EXPRESSION, taking before to after, keeps UntilExpression. */
  lemma UntilExpressionStep(original: TreeData, before: TreeData, after: TreeData, visits: seq<Visit>, v: Visit,
                            rng: Random, mutatePoint: (nat, TreeData, nat) -> Rewrite, u64Min: U64, u64Max: U64)
    requires ImagesWellFormed(rng) && Consistent(original.ops, original.values)
    requires UntilExpression(original, before, visits, rng, u64Min, u64Max)
    requires v.cursor == CursorAfter(visits) && (v.op != Some(Expression) ==> v.skip == 0)
    requires CursorAfter(visits + [v]) == v.cursor + 1 + v.skip
    requires NeverApplied(visits + [v], Expression) <==> NeverApplied(visits, Expression) && v.op != Some(Expression)
    requires Step(before, after, v, |visits|, rng, mutatePoint, u64Min, u64Max)
    ensures UntilExpression(original, after, visits + [v], rng, u64Min, u64Max)
  {
    if NeverApplied(visits + [v], Expression) {
      var all := visits + [v];
      assert all[|visits|] == v;
      assert forall j :: 0 <= j < |visits| ==> all[j] == visits[j];
      SlotsStep(original, before.values, after.values, visits, v, rng, u64Min, u64Max);
    }
  }

  /**
   * The pass stops at the end of the tree: on a one-node tree whose only
   * visit does not run EXPRESSION, the cursor passes the end after that
   * visit, so there is no second one.
   */
  lemma OneNodePassVisitsOnce(trees: seq<TreeData>, visits: seq<Visit>, chance: real, rng: Random,
                              mutatePoint: (nat, TreeData, nat) -> Rewrite, u64Min: U64, u64Max: U64)
    requires ImagesWellFormed(rng) && Trace(trees, visits, rng, mutatePoint, u64Min, u64Max)
    requires CursorAdvances(visits) && forall j :: 0 <= j < |visits| ==> Recorded(visits[j], j, rng, chance)
    requires |trees[0].ops| == 1 && |visits| > 0 && visits[0].op != Some(Expression)
    ensures |visits| == 1
  {
    if |visits| > 1 {
      assert Step(trees[0], trees[1], visits[0], 0, rng, mutatePoint, u64Min, u64Max);
      assert trees[1].ops == trees[0].ops;
      assert visits[1].cursor == 1 == |trees[1].ops|;
      TraceStep(trees, visits, 1, rng, mutatePoint, u64Min, u64Max);
      assert false;
    }
  }

  /** Visit j of a trace starts inside the tree it finds. */
  lemma TraceStep(trees: seq<TreeData>, visits: seq<Visit>, j: nat, rng: Random,
                  mutatePoint: (nat, TreeData, nat) -> Rewrite, u64Min: U64, u64Max: U64)
    requires ImagesWellFormed(rng) && Trace(trees, visits, rng, mutatePoint, u64Min, u64Max) && j < |visits|
    ensures visits[j].cursor < |trees[j].ops|
  {
    assert Step(trees[j], trees[j + 1], visits[j], j, rng, mutatePoint, u64Min, u64Max);
  }

  /** Before the first visit, PassInvariant holds of the parent itself. */
  lemma PassInit(original: TreeData, chance: real, rng: Random,
                 mutatePoint: (nat, TreeData, nat) -> Rewrite, u64Min: U64, u64Max: U64)
    requires ImagesWellFormed(rng) && Consistent(original.ops, original.values)
    ensures PassInvariant(original, original, [], [original], chance, rng, mutatePoint, u64Min, u64Max)
  {
  }

  /**
   * When the cursor has passed the end of the child, the visits without
   * EXPRESSION are exactly one per node of the parent.
   */
  lemma PassDone(original: TreeData, now: TreeData, visits: seq<Visit>, trees: seq<TreeData>, chance: real,
                 rng: Random, mutatePoint: (nat, TreeData, nat) -> Rewrite, u64Min: U64, u64Max: U64)
    requires ImagesWellFormed(rng) && Consistent(original.ops, original.values)
    requires PassInvariant(original, now, visits, trees, chance, rng, mutatePoint, u64Min, u64Max)
    requires CursorAfter(visits) >= |now.ops|
    ensures Trace(trees, visits, rng, mutatePoint, u64Min, u64Max)
    ensures trees[0] == original && trees[|visits|] == now
    ensures CursorAdvances(visits)
    ensures forall j :: 0 <= j < |visits| ==> Recorded(visits[j], j, rng, chance)
    ensures NeverApplied(visits, Expression) ==>
              now.ops == original.ops && SameSlotTypes(now.values, original.values) &&
              |visits| == |original.ops| && forall j :: 0 <= j < |visits| ==> visits[j].cursor == j
    ensures NeverApplied(visits, Expression) ==>
              SlotsFollowVisits(original, now.values, visits, rng, u64Min, u64Max)
    ensures NeverApplied(visits, Expression) && NoValueAdjusted(visits, original.ops) ==> now == original
  {
  }

  /** One visit of the mutation pass, taking before to after, keeps PassInvariant. */
  lemma PassStep(original: TreeData, before: TreeData, after: TreeData, visits: seq<Visit>, trees: seq<TreeData>,
                 v: Visit, chance: real, rng: Random, mutatePoint: (nat, TreeData, nat) -> Rewrite, u64Min: U64, u64Max: U64)
    requires ImagesWellFormed(rng) && Consistent(original.ops, original.values)
    requires PassInvariant(original, before, visits, trees, chance, rng, mutatePoint, u64Min, u64Max)
    requires v.cursor == CursorAfter(visits) && Recorded(v, |visits|, rng, chance)
    requires Step(before, after, v, |visits|, rng, mutatePoint, u64Min, u64Max)
    ensures PassInvariant(original, after, visits + [v], trees + [after], chance, rng, mutatePoint, u64Min, u64Max)
  {
    VisitAppended(visits, v, rng, chance);
    TraceAppended(trees, visits, after, v, rng, mutatePoint, u64Min, u64Max);
    UntilExpressionStep(original, before, after, visits, v, rng, mutatePoint, u64Min, u64Max);
  }

  /**
   * Visit v, the j-th of the pass, takes the consistent tree t to t'. Its
   * cursor lies inside t. EXPRESSION leaves the tree `mutate_point` returns
   * and skips the nodes it reports; ADJUST on a value node rewrites that
   * node's slot to Adjusted of its old value; every other visit leaves the
   * tree as it was.
   */
  predicate Step(t: TreeData, t': TreeData, v: Visit, j: nat, rng: Random,
                 mutatePoint: (nat, TreeData, nat) -> Rewrite, u64Min: U64, u64Max: U64)
    requires ImagesWellFormed(rng)
  {
    && Consistent(t.ops, t.values)
    && v.cursor < |t.ops|
    && (v.op == Some(Expression) ==>
          t' == mutatePoint(j, t, v.cursor).tree && v.skip == mutatePoint(j, t, v.cursor).skip)
    && (v.op == Some(Adjust) && t.ops[v.cursor].isValue ==>
          var k := ValuesBefore(t.ops, v.cursor);
          t' == TreeData(t.ops, t.values[k := Adjusted(t.values[k], rng, j, u64Min, u64Max)]))
    && (v.op != Some(Expression) && !(v.op == Some(Adjust) && t.ops[v.cursor].isValue) ==> t' == t)
  }

  /**
   * The trees the pass goes through: trees[j] is the child before visit j
   * and trees[j + 1] the child after it.
   */
  predicate Trace(trees: seq<TreeData>, visits: seq<Visit>, rng: Random,
                  mutatePoint: (nat, TreeData, nat) -> Rewrite, u64Min: U64, u64Max: U64)
    requires ImagesWellFormed(rng)
  {
    && |trees| == |visits| + 1
    && forall j :: 0 <= j < |visits| ==> Step(trees[j], trees[j + 1], visits[j], j, rng, mutatePoint, u64Min, u64Max)
  }

  /** Appending a visit and the tree it leaves extends the trace of the pass. */
  lemma TraceAppended(trees: seq<TreeData>, visits: seq<Visit>, t: TreeData, v: Visit, rng: Random,
                      mutatePoint: (nat, TreeData, nat) -> Rewrite, u64Min: U64, u64Max: U64)
    requires ImagesWellFormed(rng) && Trace(trees, visits, rng, mutatePoint, u64Min, u64Max)
    requires Step(trees[|visits|], t, v, |visits|, rng, mutatePoint, u64Min, u64Max)
    ensures Trace(trees + [t], visits + [v], rng, mutatePoint, u64Min, u64Max)
    ensures (trees + [t])[0] == trees[0] && (trees + [t])[|visits| + 1] == t
  {
    var ts, vs := trees + [t], visits + [v];
    assert ts[|visits| + 1] == t && vs[|visits|] == v;
    assert forall j :: 0 <= j <= |visits| ==> ts[j] == trees[j];
    assert forall j :: 0 <= j < |visits| ==> vs[j] == visits[j];
  }

  /**
   * The slot of a value node c after the visits: its value adjusted at
   * visit c if that visit was ADJUST, and its old value otherwise.
   */
  function SlotAfter(v: Value, visits: seq<Visit>, c: nat, rng: Random, u64Min: U64, u64Max: U64): Value
    requires WellFormed(v) && ImagesWellFormed(rng)
  {
    if c < |visits| && visits[c].op == Some(Adjust) then Adjusted(v, rng, c, u64Min, u64Max) else v
  }

  /**
   * When EXPRESSION never ran, visit c sits at node c, so each value slot
   * is rewritten at most once, from the original tree's value.
   */
  predicate SlotsFollowVisits(original: TreeData, values: seq<Value>, visits: seq<Visit>,
                              rng: Random, u64Min: U64, u64Max: U64)
    requires Consistent(original.ops, original.values) && ImagesWellFormed(rng)
    requires |values| == |original.values|
  {
    forall c :: 0 <= c < |original.ops| && original.ops[c].isValue ==>
      values[ValuesBefore(original.ops, c)] ==
        SlotAfter(original.values[ValuesBefore(original.ops, c)], visits, c, rng, u64Min, u64Max)
  }

  /** No visit applied ADJUST to a value node of ops. */
  predicate NoValueAdjusted(visits: seq<Visit>, ops: seq<Node>)
  {
    forall j :: 0 <= j < |visits| && visits[j].op == Some(Adjust) && visits[j].cursor < |ops| ==>
      !ops[visits[j].cursor].isValue
  }

  /** Distinct value nodes own distinct slots. */
  lemma ValueSlotsDistinct(ops: seq<Node>, c: nat, m: nat)
    requires c < m <= |ops| && ops[c].isValue
    ensures ValuesBefore(ops, c) < ValuesBefore(ops, m)
  {
    ValuesBeforeMonotone(ops, c + 1, m);
  }

  /**
   * One visit without EXPRESSION at node |visits| keeps the slot relation
   * and records whether it adjusted a value node.
   */
  lemma SlotsStep(original: TreeData, before: seq<Value>, after: seq<Value>, visits: seq<Visit>, v: Visit,
                  rng: Random, u64Min: U64, u64Max: U64)
    requires Consistent(original.ops, original.values) && ImagesWellFormed(rng)
    requires |before| == |original.values| == |after|
    requires SlotsFollowVisits(original, before, visits, rng, u64Min, u64Max)
    requires v.cursor == |visits| < |original.ops| && v.op != Some(Expression)
    requires v.op == Some(Adjust) && original.ops[v.cursor].isValue ==>
               var k := ValuesBefore(original.ops, v.cursor);
               after == before[k := Adjusted(before[k], rng, |visits|, u64Min, u64Max)]
    requires !(v.op == Some(Adjust) && original.ops[v.cursor].isValue) ==> after == before
    ensures SlotsFollowVisits(original, after, visits + [v], rng, u64Min, u64Max)
    ensures NoValueAdjusted(visits + [v], original.ops) <==>
              NoValueAdjusted(visits, original.ops) && !(v.op == Some(Adjust) && original.ops[v.cursor].isValue)
  {
    var all := visits + [v];
    var m := v.cursor;
    assert all[m] == v;
    assert forall j :: 0 <= j < |visits| ==> all[j] == visits[j];
    forall c | 0 <= c < |original.ops| && original.ops[c].isValue
      ensures after[ValuesBefore(original.ops, c)] ==
                SlotAfter(original.values[ValuesBefore(original.ops, c)], all, c, rng, u64Min, u64Max)
    {
      var k := ValuesBefore(original.ops, c);
      assert before[k] == SlotAfter(original.values[k], visits, c, rng, u64Min, u64Max);
      if c < m {
        ValueSlotsDistinct(original.ops, c, m);
      } else if m < c && original.ops[m].isValue {
        ValueSlotsDistinct(original.ops, m, c);
      }
    }
  }

  /**
   * What the mutation pass records of visit j: the chance it used, the
   * draws it followed, an operator other than END, and no skip unless the
   * operator was EXPRESSION.
   */
  predicate Recorded(v: Visit, j: nat, rng: Random, chance: real)
  {
    && v.chance == chance
    && v.op != Some(End)
    && FollowsDraws(v, j, rng)
    && (v.op != Some(Expression) ==> v.skip == 0)
  }

  /** Appending a visit extends the facts the mutation pass keeps about its visits. */
  lemma VisitAppended(visits: seq<Visit>, v: Visit, rng: Random, chance: real)
    requires CursorAdvances(visits) && v.cursor == CursorAfter(visits)
    requires forall j :: 0 <= j < |visits| ==> Recorded(visits[j], j, rng, chance)
    requires Recorded(v, |visits|, rng, chance)
    ensures CursorAdvances(visits + [v])
    ensures CursorAfter(visits + [v]) == v.cursor + 1 + v.skip
    ensures forall j :: 0 <= j < |visits| + 1 ==> Recorded((visits + [v])[j], j, rng, chance)
    ensures forall op :: NeverApplied(visits + [v], op) <==> NeverApplied(visits, op) && v.op != Some(op)
  {
    var all := visits + [v];
    assert all[|visits|] == v;
    assert forall j :: 0 <= j < |visits| ==> all[j] == visits[j];
  }

  /**
   * One visit of the mutation pass at node cNode: the node is selected with
   * the given chance; a selected node gets the operator its table draw
   * selects. EXPRESSION hands the child to `mutate_point` and skips the
   * nodes it reports; ADJUST rewrites a value slot; SUB_FUNC, JUMP_FUNC and
   * COPY leave the child as it was. The END branch cannot be reached.
   */
  method MutateNode(child: Tree, cNode: nat, n: nat, chance: real, rng: Random,
                    mutatePoint: (nat, TreeData, nat) -> Rewrite, u64Min: U64, u64Max: U64)
    returns (visit: Visit)
    requires child.Valid() && cNode < |child.ops| && ImagesWellFormed(rng) && ExpressionContract(mutatePoint)
    modifies child
    ensures child.Valid()
    ensures Step(old(child.Data()), child.Data(), visit, n, rng, mutatePoint, u64Min, u64Max)
    ensures visit.cursor == cNode && visit.chance == chance && visit.op != Some(End)
    ensures FollowsDraws(visit, n, rng)
    ensures |child.ops| <= old(|child.ops|) + visit.skip
    ensures visit.op == Some(Expression) ==>
              var rewrite := mutatePoint(n, old(child.Data()), cNode);
              child.Data() == rewrite.tree && visit.skip == rewrite.skip
    ensures visit.op != Some(Expression) ==>
              visit.skip == 0 && child.ops == old(child.ops) && SameSlotTypes(child.values, old(child.values))
    ensures visit.op != Some(Expression) && visit.op != Some(Adjust) ==> child.Data() == old(child.Data())
    ensures visit.op == Some(Adjust) && !old(child.ops[cNode].isValue) ==> child.Data() == old(child.Data())
    ensures visit.op == Some(Adjust) && old(child.ops[cNode].isValue) ==>
              var k := ValuesBefore(child.ops, cNode);
              k < |child.values| &&
              child.values == old(child.values)[k := Adjusted(old(child.values)[k], rng, n, u64Min, u64Max)]
  {
    if !rng.choice(n, chance) {
      return Visit(cNode, chance, None, 0);
    }
    var selectedPoint := SelectOperator(MutationOperatorChances(), rng.unit(n));
    var op := FromOrdinal(selectedPoint);
    var skip := 0;
    match op {
      case Expression =>
        var rewrite := mutatePoint(n, child.Data(), cNode);
        child.ops, child.values := rewrite.tree.ops, rewrite.tree.values;
        skip := rewrite.skip;
      case Adjust =>
        child.Adjust(cNode, rng, n, u64Min, u64Max);
      case SubFunc =>
      case JumpFunc =>
      case Copy =>
      case End =>
        assert false;
    }
    visit := Visit(cNode, chance, Some(op), skip);
  }

  /**
   * image_crossover_t::apply: exactly the library crossover's result for
   * the same two parents, which it does not change.
   */
  method Crossover<R>(baseCrossover: (TreeData, TreeData) -> R, p1: Tree, p2: Tree) returns (r: R)
    ensures r == baseCrossover(p1.Data(), p2.Data())
  {
    r := baseCrossover(p1.Data(), p2.Data());
  }
}
