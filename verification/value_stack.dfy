/**
 * The tree the mutation pass edits, as far as the pass sees it: an
 * operation sequence in pre-order, whose value (leaf) nodes own slots on a
 * packed value stack. The stack is modelled as its sequence of slots, bottom
 * first; each slot takes the aligned size of its value in bytes, and the
 * value of the last value node of the sequence lies on top.
 */
module ValueStack {
  import opened Config

  datatype Option<T> = None | Some(value: T)

  /** Byte sizes of the three value types of the image evolver. */
  const FLOAT_BYTES: nat := 4
  const U64_BYTES: nat := 8
  const IMAGE_BYTES: nat := DATA_CHANNELS_SIZE * 4

  /**
   * The alignment unit of the stack allocator. The allocator is not part of
   * this model; every proof uses only the contract of AlignedSize.
   */
  const ALIGNMENT: nat := 8

  /** A byte size rounded up to the alignment unit. */
  function AlignedSize(size: nat): (r: nat)
    ensures size <= r < size + ALIGNMENT
    ensures r % ALIGNMENT == 0
  {
    if size % ALIGNMENT == 0 then size else size + (ALIGNMENT - size % ALIGNMENT)
  }

  /** One entry of the operation sequence (the function it calls is left out). */
  datatype Node = Node(isValue: bool, typeSize: nat, id: nat)

  /** The value held by one stack slot. */
  datatype Value = FloatVal(f: real) | U64Val(n: U64) | ImageVal(pixels: seq<real>)

  /** The byte size of a value's type. */
  function SizeOf(v: Value): (size: nat)
    ensures size > 0
  {
    match v
    case FloatVal(_) => FLOAT_BYTES
    case U64Val(_) => U64_BYTES
    case ImageVal(_) => IMAGE_BYTES
  }

  /** The bytes a node takes on the stack: its aligned size if it is a value. */
  function NodeBytes(node: Node): nat
  {
    if node.isValue then AlignedSize(node.typeSize) else 0
  }

  /**
   * The bytes the nodes at positions i and after take on the stack; with
   * i == c + 1 this is `bytes_from_head` of node c.
   */
  function BytesFrom(ops: seq<Node>, i: nat): nat
    decreases |ops| - i
  {
    if i >= |ops| then 0 else NodeBytes(ops[i]) + BytesFrom(ops, i + 1)
  }

  /** The number of value nodes before position n: the slot index of node n. */
  function ValuesBefore(ops: seq<Node>, n: nat): nat
    requires n <= |ops|
  {
    if n == 0 then 0 else ValuesBefore(ops, n - 1) + (if ops[n - 1].isValue then 1 else 0)
  }

  /** The bytes taken by the slots lo .. hi - 1. */
  function SlotBytes(values: seq<Value>, lo: nat, hi: nat): nat
    requires hi <= |values|
  {
    if hi <= lo then 0 else SlotBytes(values, lo, hi - 1) + AlignedSize(SizeOf(values[hi - 1]))
  }

  /** The bytes in use on the stack. */
  function UsedBytes(values: seq<Value>): nat
  {
    SlotBytes(values, 0, |values|)
  }

  /** Every image slot holds a full image buffer. */
  predicate WellFormed(v: Value)
  {
    v.ImageVal? ==> |v.pixels| == DATA_CHANNELS_SIZE
  }

  /**
   * The operation sequence and the stack agree: one slot per value node, in
   * order, each holding a value of the node's type size.
   */
  predicate Consistent(ops: seq<Node>, values: seq<Value>)
  {
    && |values| == ValuesBefore(ops, |ops|)
    && (forall c :: 0 <= c < |ops| && ops[c].isValue ==>
          ValuesBefore(ops, c) < |values| && SizeOf(values[ValuesBefore(ops, c)]) == ops[c].typeSize)
    && (forall k :: 0 <= k < |values| ==> WellFormed(values[k]))
  }

  /**
   * `from<T>(off)` on the stack: the slot whose end lies off bytes below the
   * top, among the slots 0 .. n - 1; None when off does not fall on the end
   * of a slot.
   */
  function FromHeadIn(values: seq<Value>, n: nat, off: nat): (slot: Option<nat>)
    requires n <= |values|
    ensures slot.Some? ==> slot.value < n && off == SlotBytes(values, slot.value + 1, n)
  {
    if n == 0 then None
    else
      var top := AlignedSize(SizeOf(values[n - 1]));
      if off == 0 then Some(n - 1)
      else if off < top then None
      else FromHeadIn(values, n - 1, off - top)
  }

  function FromHead(values: seq<Value>, off: nat): (slot: Option<nat>)
    ensures slot.Some? ==> slot.value < |values| && off == SlotBytes(values, slot.value + 1, |values|)
  {
    FromHeadIn(values, |values|, off)
  }

  /** The slot index never decreases along the sequence. */
  lemma {:induction false} ValuesBeforeMonotone(ops: seq<Node>, m: nat, n: nat)
    requires m <= n <= |ops|
    ensures ValuesBefore(ops, m) <= ValuesBefore(ops, n)
    decreases n
  {
    if m < n {
      ValuesBeforeMonotone(ops, m, n - 1);
    }
  }

  /** Splitting the byte count of a slot range at its lowest slot. */
  lemma {:induction false} SlotBytesSplitLow(values: seq<Value>, lo: nat, hi: nat)
    requires lo < hi <= |values|
    ensures SlotBytes(values, lo, hi) == AlignedSize(SizeOf(values[lo])) + SlotBytes(values, lo + 1, hi)
    decreases hi
  {
    if lo + 1 < hi {
      SlotBytesSplitLow(values, lo, hi - 1);
    }
  }

  /**
   * On a consistent tree the bytes of the nodes from position i on are
   * exactly the bytes of the slots from node i's slot index to the top.
   */
  lemma {:induction false} BytesFromMatchesSlots(ops: seq<Node>, values: seq<Value>, i: nat)
    requires Consistent(ops, values) && i <= |ops|
    ensures BytesFrom(ops, i) == SlotBytes(values, ValuesBefore(ops, i), |values|)
    decreases |ops| - i
  {
    if i < |ops| {
      BytesFromMatchesSlots(ops, values, i + 1);
      ValuesBeforeMonotone(ops, i + 1, |ops|);
      if ops[i].isValue {
        SlotBytesSplitLow(values, ValuesBefore(ops, i), |values|);
      }
    }
  }

  /**
   * The byte invariant between the stack and the operation sequence: on a
   * consistent tree the bytes in use on the stack equal the total value
   * bytes of the operation sequence.
   */
  lemma UsedBytesMatchOperations(ops: seq<Node>, values: seq<Value>)
    requires Consistent(ops, values)
    ensures UsedBytes(values) == BytesFrom(ops, 0)
  {
    BytesFromMatchesSlots(ops, values, 0);
  }

  /**
   * Reading back from the top: the slot that ends SlotBytes(k + 1, n) bytes
   * below the top of slots 0 .. n - 1 is slot k.
   */
  lemma {:induction false} FromHeadFindsSlot(values: seq<Value>, k: nat, n: nat)
    requires k < n <= |values|
    ensures FromHeadIn(values, n, SlotBytes(values, k + 1, n)) == Some(k)
    decreases n
  {
    if k < n - 1 {
      FromHeadFindsSlot(values, k, n - 1);
    }
  }

  /**
   * `bytes_from_head` of a value node c, the bytes of the value nodes after
   * it, locates c's own slot on a consistent stack, and that slot holds a
   * value of c's type size.
   */
  lemma BytesFromHeadLocatesSlot(ops: seq<Node>, values: seq<Value>, c: nat)
    requires Consistent(ops, values) && c < |ops| && ops[c].isValue
    ensures ValuesBefore(ops, c) < |values|
    ensures FromHead(values, BytesFrom(ops, c + 1)) == Some(ValuesBefore(ops, c))
    ensures SizeOf(values[ValuesBefore(ops, c)]) == ops[c].typeSize
  {
    BytesFromMatchesSlots(ops, values, c + 1);
    FromHeadFindsSlot(values, ValuesBefore(ops, c), |values|);
  }

  /**
   * Rewriting one slot with a well-formed value of the same type size keeps
   * the tree consistent.
   */
  lemma {:induction false} ReplaceSlotKeepsConsistent(ops: seq<Node>, values: seq<Value>, k: nat, v: Value)
    requires Consistent(ops, values) && k < |values|
    requires SizeOf(v) == SizeOf(values[k]) && WellFormed(v)
    ensures Consistent(ops, values[k := v])
  {
    var values' := values[k := v];
    forall c | 0 <= c < |ops| && ops[c].isValue
      ensures ValuesBefore(ops, c) < |values'| && SizeOf(values'[ValuesBefore(ops, c)]) == ops[c].typeSize
    {
    }
  }
}
