/** The part of MLIR's pattern rewriter the two rewrite patterns use: the
    operations of the IR, by id, and the three edits a pattern makes to it —
    create an op, erase an op, replace an op by another op's result. */
module Rewrite {

  type OpId = nat

  /** An SSA value: a block argument or the result of an operation. */
  datatype Value = BlockArgument(index: nat) | OpResult(op: OpId)

  class Rewriter<Op> {
    /** The live operations of the IR. */
    var ops: map<OpId, Op>
    /** The id the next created operation receives. */
    var nextId: OpId
    /** Every erased operation, in the order it was erased. */
    var erased: seq<OpId>
    /** For every replaced operation, the operation whose result took over its uses. */
    var replacedBy: map<OpId, OpId>

    ghost predicate Valid()
      reads this
    {
      forall id :: id in ops ==> id < nextId
    }

    constructor (initial: map<OpId, Op>, next: OpId)
      requires forall id :: id in initial ==> id < next
      ensures Valid()
      ensures ops == initial && nextId == next && erased == [] && replacedBy == map[]
    {
      ops := initial;
      nextId := next;
      erased := [];
      replacedBy := map[];
    }

    /** Builder `create`: insert a new operation under a fresh id. */
    method Create(op: Op) returns (id: OpId)
      requires Valid()
      modifies this
      ensures Valid()
      ensures id == old(nextId) && id !in old(ops)
      ensures ops == old(ops)[id := op] && nextId == old(nextId) + 1
      ensures erased == old(erased) && replacedBy == old(replacedBy)
    {
      id := nextId;
      ops := ops[id := op];
      nextId := nextId + 1;
    }

    /** `eraseOp`: remove a live operation from the IR. */
    method EraseOp(id: OpId)
      requires Valid() && id in ops
      modifies this
      ensures Valid()
      ensures ops == old(ops) - {id} && erased == old(erased) + [id]
      ensures nextId == old(nextId) && replacedBy == old(replacedBy)
    {
      ops := ops - {id};
      erased := erased + [id];
    }

    /** `replaceOp`: route the uses of `id` to the result of `replacement`, then erase `id`. */
    method ReplaceOp(id: OpId, replacement: OpId)
      requires Valid() && id in ops && replacement in ops && id != replacement
      modifies this
      ensures Valid()
      ensures ops == old(ops) - {id} && replacement in ops
      ensures erased == old(erased) + [id] && replacedBy == old(replacedBy)[id := replacement]
      ensures nextId == old(nextId)
    {
      replacedBy := replacedBy[id := replacement];
      EraseOp(id);
    }
  }
}
