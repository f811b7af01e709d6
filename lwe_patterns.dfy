/** `ConvertExtract`: lowers "extract the slot at a constant offset from an
    encrypted vector" to a one-hot mask constant, its encoding, a
    ciphertext-plaintext multiply, a rotation by the offset and a
    reinterpretation of the underlying type.  The multiply and rotate
    operation kinds are the scheme's own; here they are single records. */
module LwePatterns {
  import opened Rewrite
  import opened APInts

  type int64 = x: int | -0x8000_0000_0000_0000 <= x < 0x8000_0000_0000_0000

  /** The message element type of an RLWE value. */
  datatype ElementType = IntegerType(width: nat) | IndexType | FloatType(width: nat) | TensorType

  predicate IsIntOrFloat(t: ElementType)
  {
    t.IntegerType? || t.FloatType?
  }

  predicate IsIntOrIndex(t: ElementType)
  {
    t.IntegerType? || t.IndexType?
  }

  datatype Encoding = Encoding(name: string)
  /** A polynomial ring; `degree` is the degree of its polynomial modulus. */
  datatype Ring = Ring(coefficientModulus: nat, degree: nat)
  datatype PlaintextSpace = PlaintextSpace(ring: Ring, encoding: Encoding)
  datatype CiphertextSpace = CiphertextSpace(ring: Ring)
  datatype ApplicationData = ApplicationData(messageType: ElementType)
  datatype CiphertextType = CiphertextType(applicationData: ApplicationData,
                                           plaintextSpace: PlaintextSpace,
                                           ciphertextSpace: CiphertextSpace)
  datatype PlaintextType = PlaintextType(applicationData: ApplicationData, plaintextSpace: PlaintextSpace)

  /** What defines an extract's offset operand. */
  datatype OffsetDefinition = NotConstant | ConstantNonInteger | ConstantInteger(value: int64)

  /** One entry of the one-hot constant: an integer or a float attribute
      holding 0 or 1. */
  datatype MaskEntry = IntegerEntry(bit: nat) | FloatEntry(bit: nat)

  datatype LweOp =
    | Extract(input: Value, inputType: CiphertextType, offset: OffsetDefinition, outputType: CiphertextType)
    | ArithConstant(shape: seq<nat>, elementType: ElementType, entries: seq<MaskEntry>)
    | RlweEncode(plaintextType: PlaintextType, cleartext: Value, encoding: Encoding, ring: Ring)
    | MulPlain(ciphertext: Value, plaintext: Value)
    | Rotate(rotated: Value, rotation: int64)
    | ReinterpretUnderlyingType(resultType: CiphertextType, source: Value)

  datatype Diagnostic =
    | OffsetNotConstantInteger
    | ElementNotScalar(inputElement: ElementType, outputElement: ElementType)

  // ---------------------------------------------------------------------
  // The one-hot mask
  // ---------------------------------------------------------------------

  /** The slot index the mask compares against: `(unsigned int)offset`, the
      low 32 bits of the two's-complement offset. */
  function MaskPosition(offset: int64): (pos: nat)
    ensures pos < U32_MODULUS
    ensures 0 <= offset < U32_MODULUS ==> pos == offset
  {
    offset % U32_MODULUS
  }

  /** The one-hot constant: `degree` entries, 1 at the mask position, 0 elsewhere. */
  function OneHotMask(degree: nat, offset: int64, elementType: ElementType): seq<MaskEntry>
  {
    seq(degree, i =>
      var attrVal: nat := if i == MaskPosition(offset) then 1 else 0;
      if IsIntOrIndex(elementType) then IntegerEntry(attrVal) else FloatEntry(attrVal))
  }

  /** The loop that fills `oneHotCleartextAttrs`. */
  method BuildOneHotMask(degree: nat, offset: int64, elementType: ElementType) returns (mask: seq<MaskEntry>)
    ensures mask == OneHotMask(degree, offset, elementType)
  {
    mask := [];
    for i := 0 to degree
      invariant |mask| == i
      invariant forall k :: 0 <= k < i ==> mask[k] == OneHotMask(degree, offset, elementType)[k]
    {
      var attrVal := if i == MaskPosition(offset) then 1 else 0;
      if IsIntOrIndex(elementType) {
        mask := mask + [IntegerEntry(attrVal)];
      } else {
        mask := mask + [FloatEntry(attrVal)];
      }
    }
  }

  /** The number of nonzero entries. */
  function HotCount(mask: seq<MaskEntry>): nat
  {
    if mask == [] then 0 else HotCount(mask[..|mask| - 1]) + (if mask[|mask| - 1].bit != 0 then 1 else 0)
  }

  /** The mask has exactly `degree` entries, every entry is 0 or 1, integer
      exactly when the element type is an integer or index type, and 1 exactly
      at the mask position. */
  lemma OneHotMaskEntries(degree: nat, offset: int64, elementType: ElementType)
    ensures var mask := OneHotMask(degree, offset, elementType);
      && |mask| == degree
      && (forall i :: 0 <= i < degree ==> (mask[i].bit == 1 <==> i == MaskPosition(offset)))
      && (forall i :: 0 <= i < degree ==> mask[i].bit == 0 || mask[i].bit == 1)
      && (forall i :: 0 <= i < degree ==> (mask[i].IntegerEntry? <==> IsIntOrIndex(elementType)))
  {
  }

  /** At most one entry is hot, and exactly one when the 32-bit position is
      below the degree: a negative or too large offset gives an all-zero mask
      unless its low 32 bits land in range. */
  lemma {:induction false} OneHotMaskCount(degree: nat, offset: int64, elementType: ElementType)
    ensures HotCount(OneHotMask(degree, offset, elementType)) == if MaskPosition(offset) < degree then 1 else 0
  {
    if degree > 0 {
      var mask := OneHotMask(degree, offset, elementType);
      assert mask[..degree - 1] == OneHotMask(degree - 1, offset, elementType);
      OneHotMaskCount(degree - 1, offset, elementType);
    }
  }

  /** Multiplying cleartext slots by the mask keeps the slot at the mask
      position and zeroes every other slot. */
  function ApplyMask(mask: seq<MaskEntry>, slots: seq<int>): (masked: seq<int>)
    requires |slots| == |mask|
    ensures |masked| == |mask|
  {
    seq(|mask|, i requires 0 <= i < |mask| => mask[i].bit * slots[i])
  }

  lemma OneHotMaskSelectsSlot(degree: nat, offset: int64, elementType: ElementType, slots: seq<int>)
    requires |slots| == degree
    ensures var masked := ApplyMask(OneHotMask(degree, offset, elementType), slots);
            forall i :: 0 <= i < degree ==> masked[i] == if i == MaskPosition(offset) then slots[i] else 0
  {
  }

  /** Offset -1 casts to 2^32 - 1, so a degree-8 mask is all zero; an offset of
      3 - 2^32 casts to 3 and is hot at 3. */
  lemma MaskPositionWraps()
    ensures HotCount(OneHotMask(8, -1, IntegerType(32))) == 0
    ensures OneHotMask(8, 3 - 0x1_0000_0000, IntegerType(32))[3] == IntegerEntry(1)
  {
    OneHotMaskCount(8, -1, IntegerType(32));
  }

  // ---------------------------------------------------------------------
  // The rewrite
  // ---------------------------------------------------------------------

  /** The outcome of the pattern on one extract: a match failure, or the ops
      it creates (in creation order, the k-th receiving id `base + k`) with the
      diagnostics it emits along the way. */
  datatype Lowering =
    | MatchFailure(diagnostic: Diagnostic)
    | Lowered(created: seq<LweOp>, diagnostics: seq<Diagnostic>)

  /** What `ConvertExtract::matchAndRewrite` does to the extract `op` when the
      next free op id is `base`. */
  function LowerExtract(op: LweOp, base: OpId): Lowering
    requires op.Extract?
  {
    match op.offset
    case NotConstant => MatchFailure(OffsetNotConstantInteger)
    case ConstantNonInteger => MatchFailure(OffsetNotConstantInteger)
    case ConstantInteger(offset) =>
      var ctTy := op.inputType;
      var degree := ctTy.ciphertextSpace.ring.degree;
      var elementTy := op.outputType.applicationData.messageType;
      var diagnostics :=
        if IsIntOrFloat(elementTy) then []
        else [ElementNotScalar(ctTy.applicationData.messageType, elementTy)];
      var ptSpace := ctTy.plaintextSpace;
      Lowered([ ArithConstant([degree], elementTy, OneHotMask(degree, offset, elementTy)),
                RlweEncode(PlaintextType(ctTy.applicationData, ptSpace), OpResult(base),
                           ptSpace.encoding, ptSpace.ring),
                MulPlain(op.input, OpResult(base + 1)),
                Rotate(OpResult(base + 2), offset),
                ReinterpretUnderlyingType(op.outputType, OpResult(base + 3)) ],
              diagnostics)
  }

  /** The operands of an operation. */
  function Operands(op: LweOp): seq<Value>
  {
    match op
    case Extract(input, _, _, _) => [input]
    case ArithConstant(_, _, _) => []
    case RlweEncode(_, cleartext, _, _) => [cleartext]
    case MulPlain(ciphertext, plaintext) => [ciphertext, plaintext]
    case Rotate(rotated, _) => [rotated]
    case ReinterpretUnderlyingType(_, source) => [source]
  }

  /** The pattern fails, emitting its diagnostic, exactly when the offset is
      not defined by an integer constant. */
  lemma LowerExtractFails(op: LweOp, base: OpId)
    requires op.Extract?
    ensures LowerExtract(op, base).MatchFailure? <==> !op.offset.ConstantInteger?
    ensures LowerExtract(op, base).MatchFailure? ==>
              LowerExtract(op, base).diagnostic == OffsetNotConstantInteger
  {
  }

  /** On a constant integer offset the pattern creates, in this order: the
      one-hot mask constant of the input ring's degree, an encode of that
      constant into the input's plaintext space, a multiply of the input by
      that plaintext, a rotation of the product by the offset, and a
      reinterpretation of the rotation to the extract's own result type.  The
      k-th op has id `base + k`; each op reads exactly its predecessor's
      result, except the multiply, which also reads the input ciphertext. */
  lemma LowerExtractShape(op: LweOp, base: OpId)
    requires op.Extract? && op.offset.ConstantInteger?
    ensures var l := LowerExtract(op, base);
      var offset := op.offset.value;
      var degree := op.inputType.ciphertextSpace.ring.degree;
      var elementTy := op.outputType.applicationData.messageType;
      && l.Lowered?
      && |l.created| == 5
      && l.created[0].ArithConstant? && l.created[0].shape == [degree]
      && l.created[0].elementType == elementTy
      && l.created[0].entries == OneHotMask(degree, offset, elementTy)
      && HotCount(l.created[0].entries) == (if MaskPosition(offset) < degree then 1 else 0)
      && l.created[1].RlweEncode?
      && l.created[1].plaintextType.applicationData == op.inputType.applicationData
      && l.created[1].plaintextType.plaintextSpace == op.inputType.plaintextSpace
      && l.created[1].encoding == op.inputType.plaintextSpace.encoding
      && l.created[1].ring == op.inputType.plaintextSpace.ring
      && l.created[2].MulPlain?
      && l.created[3] == Rotate(OpResult(base + 2), offset)
      && l.created[4].ReinterpretUnderlyingType? && l.created[4].resultType == op.outputType
      && Operands(l.created[0]) == []
      && Operands(l.created[1]) == [OpResult(base)]
      && Operands(l.created[2]) == [op.input, OpResult(base + 1)]
      && Operands(l.created[3]) == [OpResult(base + 2)]
      && Operands(l.created[4]) == [OpResult(base + 3)]
  {
    OneHotMaskCount(op.inputType.ciphertextSpace.ring.degree, op.offset.value,
                    op.outputType.applicationData.messageType);
  }

  /** An index element type is not an integer or float, so it is diagnosed;
      yet the rewrite still goes ahead, and since index is an integer-like
      type the mask entries are integer attributes. */
  lemma NonScalarElementStillLowered(op: LweOp, base: OpId)
    requires op.Extract? && op.offset.ConstantInteger?
    requires op.outputType.applicationData.messageType == IndexType
    ensures var l := LowerExtract(op, base);
      && l.Lowered?
      && l.diagnostics == [ElementNotScalar(op.inputType.applicationData.messageType, IndexType)]
      && |l.created[0].entries| == op.inputType.ciphertextSpace.ring.degree
      && forall i :: 0 <= i < |l.created[0].entries| ==> l.created[0].entries[i].IntegerEntry?
  {
  }

  /** Ring degree 8 and offset 3: the mask is 1 at index 3 only. */
  lemma LowerExtractDegreeEight(op: LweOp, base: OpId)
    requires op.Extract? && op.offset == ConstantInteger(3)
    requires op.inputType.ciphertextSpace.ring.degree == 8
    requires op.outputType.applicationData.messageType == IntegerType(16)
    ensures var l := LowerExtract(op, base);
      l.Lowered? && l.diagnostics == []
      && l.created[0] == ArithConstant([8], IntegerType(16),
           [IntegerEntry(0), IntegerEntry(0), IntegerEntry(0), IntegerEntry(1),
            IntegerEntry(0), IntegerEntry(0), IntegerEntry(0), IntegerEntry(0)])
      && l.created[3] == Rotate(OpResult(base + 2), 3)
  {
    var mask := OneHotMask(8, 3, IntegerType(16));
    assert mask == [IntegerEntry(0), IntegerEntry(0), IntegerEntry(0), IntegerEntry(1),
                    IntegerEntry(0), IntegerEntry(0), IntegerEntry(0), IntegerEntry(0)];
  }

  /** The ops `created` occupy ids `base`, `base + 1`, ... on top of `ops`. */
  function WithCreated(ops: map<OpId, LweOp>, base: OpId, created: seq<LweOp>): map<OpId, LweOp>
  {
    if created == [] then ops
    else WithCreated(ops, base, created[..|created| - 1])[base + |created| - 1 := created[|created| - 1]]
  }

  /** `ConvertExtract::matchAndRewrite` on the extract with id `op`: on a
      match failure the IR is untouched; otherwise the five ops of
      `LowerExtract` are created under fresh ids, the extract is replaced by
      the reinterpretation, and success is returned. */
  method ConvertExtract(rewriter: Rewriter<LweOp>, op: OpId) returns (success: bool, diagnostics: seq<Diagnostic>)
    requires rewriter.Valid() && op in rewriter.ops && rewriter.ops[op].Extract?
    modifies rewriter
    ensures rewriter.Valid()
    ensures var l := LowerExtract(old(rewriter.ops[op]), old(rewriter.nextId));
      && success == l.Lowered?
      && (!success ==>
            && diagnostics == [l.diagnostic]
            && rewriter.ops == old(rewriter.ops) && rewriter.nextId == old(rewriter.nextId)
            && rewriter.erased == old(rewriter.erased) && rewriter.replacedBy == old(rewriter.replacedBy))
      && (success ==>
            && diagnostics == l.diagnostics
            && rewriter.nextId == old(rewriter.nextId) + 5
            && rewriter.ops == WithCreated(old(rewriter.ops), old(rewriter.nextId), l.created) - {op}
            && rewriter.erased == old(rewriter.erased) + [op]
            && rewriter.replacedBy == old(rewriter.replacedBy)[op := old(rewriter.nextId) + 4])
  {
    var extract := rewriter.ops[op];
    ghost var base := rewriter.nextId;
    if !extract.offset.ConstantInteger? {
      return false, [OffsetNotConstantInteger];
    }
    var offset := extract.offset.value;
    var ctTy := extract.inputType;
    var degree := ctTy.ciphertextSpace.ring.degree;
    var elementTy := extract.outputType.applicationData.messageType;
    diagnostics := [];
    if !IsIntOrFloat(elementTy) {
      diagnostics := [ElementNotScalar(ctTy.applicationData.messageType, elementTy)];
    }
    ghost var l := LowerExtract(extract, base);
    ghost var before := old(rewriter.ops);
    var mask := BuildOneHotMask(degree, offset, elementTy);
    var oneHotCleartext := rewriter.Create(ArithConstant([degree], elementTy, mask));
    assert rewriter.ops == WithCreated(before, base, l.created[..1]);
    var ptSpace := ctTy.plaintextSpace;
    var oneHotPlaintext := rewriter.Create(RlweEncode(PlaintextType(ctTy.applicationData, ptSpace),
                                                      OpResult(oneHotCleartext), ptSpace.encoding, ptSpace.ring));
    assert l.created[..2][..1] == l.created[..1];
    assert rewriter.ops == WithCreated(before, base, l.created[..2]);
    var plainMul := rewriter.Create(MulPlain(extract.input, OpResult(oneHotPlaintext)));
    assert l.created[..3][..2] == l.created[..2];
    assert rewriter.ops == WithCreated(before, base, l.created[..3]);
    var rotated := rewriter.Create(Rotate(OpResult(plainMul), offset));
    assert l.created[..4][..3] == l.created[..3];
    assert rewriter.ops == WithCreated(before, base, l.created[..4]);
    var recast := rewriter.Create(ReinterpretUnderlyingType(extract.outputType, OpResult(rotated)));
    assert l.created[..5][..4] == l.created[..4];
    assert l.created[..5] == l.created;
    assert rewriter.ops == WithCreated(before, base, l.created);
    rewriter.ReplaceOp(op, recast);
    success := true;
  }
}
