/** `RemoveUnusedMemrefPattern`: an allocation whose memref is only ever
    written, stored to or freed is dead, so its users and the allocation are
    erased. */
module UnusedMemRef {
  import opened Rewrite

  datatype EffectKind = Read | Write | Allocate | Free

  /** One memory effect an operation declares, on one value. */
  datatype MemoryEffect = MemoryEffect(kind: EffectKind, on: Value)

  /** The memory effects an operation declares, if it implements the memory
      effect interface at all. */
  datatype EffectInterface = NoEffectInterface | Effects(effects: seq<MemoryEffect>)

  /** The operations this pattern tells apart. */
  datatype MemOp =
    | AllocOp
    | AffineWriteOp
    | MemrefStoreOp
    | OtherOp(interface: EffectInterface)

  /** MLIR's `hasSingleEffect<MemoryEffects::Free>(op, value)`: the operation
      declares effects, at least one of them on `value`, and every effect on
      `value` is a free. */
  predicate HasSingleFreeEffect(op: MemOp, value: Value)
  {
    && op.OtherOp?
    && op.interface.Effects?
    && (exists k :: 0 <= k < |op.interface.effects| && op.interface.effects[k].on == value)
    && (forall k :: 0 <= k < |op.interface.effects| && op.interface.effects[k].on == value ==>
          op.interface.effects[k].kind == Free)
  }

  /** A user that does not keep the memref alive: an affine write, a memref
      store, or an operation whose one effect on it is freeing it. */
  predicate IsDeadUser(op: MemOp, memref: Value)
  {
    op.AffineWriteOp? || op.MemrefStoreOp? || HasSingleFreeEffect(op, memref)
  }

  /** The `llvm::any_of` of the pattern: some user keeps the memref alive. */
  function AnyLiveUser(ops: map<OpId, MemOp>, users: seq<OpId>, memref: Value): bool
    requires forall k :: 0 <= k < |users| ==> users[k] in ops
  {
    if users == [] then false
    else !IsDeadUser(ops[users[0]], memref) || AnyLiveUser(ops, users[1..], memref)
  }

  /** `any_of` holds exactly when some user is not a dead user; in particular
      it is false for an allocation without users. */
  lemma {:induction false} AnyLiveUserIff(ops: map<OpId, MemOp>, users: seq<OpId>, memref: Value)
    requires forall k :: 0 <= k < |users| ==> users[k] in ops
    ensures AnyLiveUser(ops, users, memref) <==>
              exists k :: 0 <= k < |users| && !IsDeadUser(ops[users[k]], memref)
  {
    if users != [] {
      AnyLiveUserIff(ops, users[1..], memref);
      if !IsDeadUser(ops[users[0]], memref) {
        assert 0 < |users| && !IsDeadUser(ops[users[0]], memref);
      } else if exists k :: 0 <= k < |users| && !IsDeadUser(ops[users[k]], memref) {
        var k :| 0 <= k < |users| && !IsDeadUser(ops[users[k]], memref);
        assert k > 0 && users[1..][k - 1] == users[k];
      }
    }
  }

  /** A memref whose only users are dead users is removable, whatever their
      number, including none. */
  lemma OnlyDeadUsersRemovable(ops: map<OpId, MemOp>, users: seq<OpId>, memref: Value)
    requires forall k :: 0 <= k < |users| ==> users[k] in ops
    requires forall k :: 0 <= k < |users| ==> IsDeadUser(ops[users[k]], memref)
    ensures !AnyLiveUser(ops, users, memref)
  {
    AnyLiveUserIff(ops, users, memref);
  }

  /** A dealloc-like user frees the memref; a user that also reads it, or
      that declares no effects, keeps it alive. */
  lemma DeadUserExamples(alloc: OpId)
    ensures IsDeadUser(OtherOp(Effects([MemoryEffect(Free, OpResult(alloc))])), OpResult(alloc))
    ensures !IsDeadUser(OtherOp(Effects([MemoryEffect(Free, OpResult(alloc)),
                                         MemoryEffect(Read, OpResult(alloc))])), OpResult(alloc))
    ensures !IsDeadUser(OtherOp(NoEffectInterface), OpResult(alloc))
    ensures !IsDeadUser(OtherOp(Effects([])), OpResult(alloc))
  {
    var free := MemoryEffect(Free, OpResult(alloc));
    assert [free][0].on == OpResult(alloc);
    var both := [free, MemoryEffect(Read, OpResult(alloc))];
    assert both[1].on == OpResult(alloc) && both[1].kind != Free;
  }

  /** `RemoveUnusedMemrefPattern::matchAndRewrite` on the allocation `alloc`
      whose memref has the users `users`, in use-list order.  Fails and
      changes nothing if some user keeps the memref alive; otherwise erases
      every user, in order, then the allocation, and nothing else. */
  method RemoveUnusedMemref(rewriter: Rewriter<MemOp>, alloc: OpId, users: seq<OpId>) returns (success: bool)
    requires rewriter.Valid()
    requires alloc in rewriter.ops && rewriter.ops[alloc] == AllocOp
    requires forall k :: 0 <= k < |users| ==> users[k] in rewriter.ops && users[k] != alloc
    requires forall j, k :: 0 <= j < k < |users| ==> users[j] != users[k]
    modifies rewriter
    ensures rewriter.Valid()
    ensures success == !AnyLiveUser(old(rewriter.ops), users, OpResult(alloc))
    ensures !success ==> rewriter.ops == old(rewriter.ops) && rewriter.erased == old(rewriter.erased)
    ensures success ==>
              && rewriter.ops == old(rewriter.ops) - (set k | 0 <= k < |users| :: users[k]) - {alloc}
              && rewriter.erased == old(rewriter.erased) + users + [alloc]
    ensures rewriter.nextId == old(rewriter.nextId) && rewriter.replacedBy == old(rewriter.replacedBy)
  {
    var memref := OpResult(alloc);
    if AnyLiveUser(rewriter.ops, users, memref) {
      return false;
    }
    for i := 0 to |users|
      invariant rewriter.Valid()
      invariant rewriter.ops == old(rewriter.ops) - (set k | 0 <= k < i :: users[k])
      invariant rewriter.erased == old(rewriter.erased) + users[..i]
      invariant rewriter.nextId == old(rewriter.nextId) && rewriter.replacedBy == old(rewriter.replacedBy)
    {
      assert users[i] !in (set k | 0 <= k < i :: users[k]);
      rewriter.EraseOp(users[i]);
      assert (set k | 0 <= k < i + 1 :: users[k]) == (set k | 0 <= k < i :: users[k]) + {users[i]};
      assert users[..i + 1] == users[..i] + [users[i]];
    }
    assert users[..|users|] == users;
    rewriter.EraseOp(alloc);
    success := true;
  }
}
