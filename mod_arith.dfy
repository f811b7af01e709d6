/** The modular-arithmetic dialect's verifiers and the width rules of its
    constant parser.  A modular type holds its modulus as an APInt; the
    APInt's width is the storage width of every value of that type. */
module ModArith {
  import opened APInts

  datatype ModArithType = ModArithType(modulus: APInt)
  {
    /** The storage width: the bit width of the modulus APInt. */
    function StorageWidth(): u32
    {
      modulus.width
    }
  }

  /** What each failed check reports (the diagnostic's numbers, not its text). */
  datatype Diagnostic =
    | ModulusTooWide(bitWidth: u32, modWidth: nat)
    | WidthMismatch(intWidth: u32, bitWidth: u32)
    | BarrettWidthOutOfRange(bitWidth: u32, expected: u32)
    | BarrettModulusNotPositive(modulus: APInt)
    | ShapedIffDense
    | ScalarTooWide(valueWidth: u32, storageWidth: u32)
    | ShapeMismatch
    | DenseTooWide(elementWidth: u32, storageWidth: u32)
    | NotIntegerOrDense

  datatype LogicalResult = Success | Failure(diag: Diagnostic)

  /** The storage-width invariant of a modular type, stated on values: the
      modulus lies below 2^(width - 1), so one high bit is always spare.  At
      width 0 the source's `bitWidth - 1` wraps to the largest `unsigned`, so
      the check accepts (the modulus is then necessarily 0). */
  predicate HasSpareBit(t: ModArithType)
  {
    t.StorageWidth() == 0 || t.modulus.value < Pow2(t.StorageWidth() - 1)
  }

  // ---------------------------------------------------------------------
  // Width checks shared by the arithmetic operations
  // ---------------------------------------------------------------------

  /** `verifyModArithType`: the modulus needs at most `bitWidth - 1` active bits. */
  function VerifyModArithType(t: ModArithType): (r: LogicalResult)
    ensures r.Success? <==> HasSpareBit(t)
    ensures r.Failure? ==> r.diag == ModulusTooWide(t.StorageWidth(), ActiveBits(t.modulus.value))
  {
    var bitWidth := t.StorageWidth();
    var modWidth := ActiveBits(t.modulus.value);
    ActiveBitsBound(t.modulus.value, SubU32(bitWidth, 1));
    if modWidth > SubU32(bitWidth, 1) then Failure(ModulusTooWide(bitWidth, modWidth)) else Success
  }

  /** `verifySameWidth`: the integer type has the modular type's storage width. */
  function VerifySameWidth(t: ModArithType, intWidth: u32): (r: LogicalResult)
    ensures r.Success? <==> intWidth == t.StorageWidth()
    ensures r.Failure? ==> r.diag == WidthMismatch(intWidth, t.StorageWidth())
  {
    var bitWidth := t.StorageWidth();
    if intWidth != bitWidth then Failure(WidthMismatch(intWidth, bitWidth)) else Success
  }

  /** `ExtractOp::verify`: the same-width check first, and only when it passes
      the width check of the operand's modular type. */
  function VerifyExtract(operandType: ModArithType, resultWidth: u32): (r: LogicalResult)
    ensures r.Success? <==> resultWidth == operandType.StorageWidth() && HasSpareBit(operandType)
    ensures resultWidth != operandType.StorageWidth() ==>
              r == Failure(WidthMismatch(resultWidth, operandType.StorageWidth()))
    ensures resultWidth == operandType.StorageWidth() && !HasSpareBit(operandType) ==>
              r == Failure(ModulusTooWide(operandType.StorageWidth(), ActiveBits(operandType.modulus.value)))
  {
    var sameWidth := VerifySameWidth(operandType, resultWidth);
    if sameWidth.Failure? then sameWidth else VerifyModArithType(operandType)
  }

  datatype ArithOp = AddOp | SubOp | MulOp | MacOp | ReduceOp

  /** `AddOp`/`SubOp`/`MulOp`/`MacOp`/`ReduceOp::verify`: the width check on
      the result's modular type, and nothing else. */
  function VerifyArith(op: ArithOp, resultType: ModArithType): (r: LogicalResult)
    ensures r.Success? <==> HasSpareBit(resultType)
    ensures r.Failure? ==> r.diag == ModulusTooWide(resultType.StorageWidth(), ActiveBits(resultType.modulus.value))
  {
    VerifyModArithType(resultType)
  }

  // ---------------------------------------------------------------------
  // Barrett reduction
  // ---------------------------------------------------------------------

  /** The type of a Barrett reduction's input. */
  datatype BarrettInputType = RankedTensorType(elementWidth: u32) | IntegerType(width: u32)

  function InputBitWidth(t: BarrettInputType): u32
  {
    match t
    case RankedTensorType(w) => w
    case IntegerType(w) => w
  }

  /** `w`: the active bits of `modulus - 1`, the width holding [0, modulus). */
  function BarrettWidth(modulus: APInt): u32
  {
    ActiveBitsOf(SubOne(modulus))
  }

  /** `BarrettReduceOp::verify`, as written: the range check on the input
      width first, then the signed-negative test on the modulus. */
  function VerifyBarrettReduce(input: BarrettInputType, modulus: APInt): (r: LogicalResult)
    ensures var b, w := InputBitWidth(input), BarrettWidth(modulus);
            r.Success? ==> w <= b <= 2 * w && !IsSignedNegative(modulus)
    ensures var b, w := InputBitWidth(input), BarrettWidth(modulus);
            2 * w < U32_MODULUS ==> (r.Success? <==> w <= b <= 2 * w && !IsSignedNegative(modulus))
    ensures var b, w := InputBitWidth(input), BarrettWidth(modulus);
            !(w <= b <= 2 * w) ==> r == Failure(BarrettWidthOutOfRange(b, w))
    ensures var b, w := InputBitWidth(input), BarrettWidth(modulus);
            2 * w < U32_MODULUS && w <= b <= 2 * w && IsSignedNegative(modulus) ==>
              r == Failure(BarrettModulusNotPositive(modulus))
  {
    var bitWidth := InputBitWidth(input);
    var expectedBitWidth := BarrettWidth(modulus);
    if bitWidth < expectedBitWidth || DoubleU32(expectedBitWidth) < bitWidth then
      Failure(BarrettWidthOutOfRange(bitWidth, expectedBitWidth))
    else if IsSignedNegative(modulus) then
      Failure(BarrettModulusNotPositive(modulus))
    else
      Success
  }

  /** The evidently intended Barrett check: the message says the modulus must
      be a positive integer, so zero is rejected as well (`sle(0)`). */
  function VerifyBarrettReducePositive(input: BarrettInputType, modulus: APInt): (r: LogicalResult)
    ensures r.Success? ==> modulus.value > 0 && !IsSignedNegative(modulus)
    ensures var b, w := InputBitWidth(input), BarrettWidth(modulus);
            r.Success? ==> w <= b <= 2 * w
    ensures modulus.value != 0 ==> r == VerifyBarrettReduce(input, modulus)
  {
    var bitWidth := InputBitWidth(input);
    var expectedBitWidth := BarrettWidth(modulus);
    if bitWidth < expectedBitWidth || DoubleU32(expectedBitWidth) < bitWidth then
      Failure(BarrettWidthOutOfRange(bitWidth, expectedBitWidth))
    else if IsSignedNegative(modulus) || IsZero(modulus) then
      Failure(BarrettModulusNotPositive(modulus))
    else
      Success
  }

  // ---------------------------------------------------------------------
  // Constants
  // ---------------------------------------------------------------------

  datatype Dim = Static(size: nat) | Dynamic

  /** The declared type of a constant: a modular scalar, or a shaped container
      (tensor) of modular elements. */
  datatype ConstantType =
    | ScalarType(mod: ModArithType)
    | ShapedType(dims: seq<Dim>, mod: ModArithType)

  /** The `value` attribute of a constant.  A dense attribute always has a
      static shape, and one element type whose width is `elementWidth`. */
  datatype ConstantValue =
    | IntegerAttr(v: APInt)
    | DenseIntElementsAttr(shape: seq<nat>, elementWidth: u32, values: seq<APInt>)
    | OtherAttr

  datatype ConstantOp = ConstantOp(value: ConstantValue, ty: ConstantType)

  predicate HasStaticShape(dims: seq<Dim>)
  {
    forall k :: 0 <= k < |dims| ==> dims[k].Static?
  }

  function StaticSizes(dims: seq<Dim>): (sizes: seq<nat>)
    requires HasStaticShape(dims)
    ensures |sizes| == |dims|
    ensures forall k :: 0 <= k < |dims| ==> dims[k] == Static(sizes[k])
  {
    seq(|dims|, k requires 0 <= k < |dims| => dims[k].size)
  }

  /** A constant agrees with its declared type: a scalar integer no wider than
      the storage width under a scalar type, or a dense value under a shaped
      type with the same static extents and an element width no wider than the
      storage width. */
  predicate WellFormedConstant(ty: ConstantType, value: ConstantValue)
  {
    match value
    case IntegerAttr(v) =>
      ty.ScalarType? && v.width <= ty.mod.StorageWidth()
    case DenseIntElementsAttr(shape, elementWidth, _) =>
      && ty.ShapedType?
      && |ty.dims| == |shape|
      && (forall k :: 0 <= k < |shape| ==> ty.dims[k] == Static(shape[k]))
      && elementWidth <= ty.mod.StorageWidth()
    case OtherAttr => false
  }

  /** `ConstantOp::verify`: the checks run in order and the first failing one
      decides the diagnostic. */
  function VerifyConstant(ty: ConstantType, value: ConstantValue): (r: LogicalResult)
    ensures r.Success? <==> WellFormedConstant(ty, value)
    ensures ty.ShapedType? != value.DenseIntElementsAttr? ==> r == Failure(ShapedIffDense)
    ensures ty.ScalarType? && value.IntegerAttr? && value.v.width > ty.mod.StorageWidth() ==>
              r.diag.ScalarTooWide?
    ensures ty.ShapedType? && value.DenseIntElementsAttr? && r.Failure? && r.diag.DenseTooWide? ==>
              HasStaticShape(ty.dims) && StaticSizes(ty.dims) == value.shape
    ensures (&& ty.ShapedType? && value.DenseIntElementsAttr?
             && (!HasStaticShape(ty.dims) || StaticSizes(ty.dims) != value.shape)) ==>
              r == Failure(ShapeMismatch)
    ensures (&& ty.ShapedType? && value.DenseIntElementsAttr?
             && HasStaticShape(ty.dims) && StaticSizes(ty.dims) == value.shape
             && value.elementWidth > ty.mod.StorageWidth()) ==>
              r == Failure(DenseTooWide(value.elementWidth, ty.mod.StorageWidth()))
    ensures ty.ScalarType? && value.OtherAttr? ==> r == Failure(NotIntegerOrDense)
  {
    if ty.ShapedType? != value.DenseIntElementsAttr? then
      Failure(ShapedIffDense)
    else
      var modBW := ty.mod.StorageWidth();
      match value
      case IntegerAttr(v) =>
        if v.width > modBW then Failure(ScalarTooWide(v.width, modBW)) else Success
      case DenseIntElementsAttr(shape, elementWidth, _) =>
        if !HasStaticShape(ty.dims) || StaticSizes(ty.dims) != shape then
          Failure(ShapeMismatch)
        else if elementWidth > modBW then
          Failure(DenseTooWide(elementWidth, modBW))
        else
          Success
      case OtherAttr =>
        Failure(NotIntegerOrDense)
  }

  // ---------------------------------------------------------------------
  // Parsing constants
  // ---------------------------------------------------------------------

  /** The width the parser gives a literal `1`, to which zero is cut back. */
  const MIN_BITWIDTH: u32 := 4

  /** An integer literal as the parser produced it, or a `dense<[...]>` list of them. */
  datatype Literal = ScalarLiteral(v: APInt) | DenseLiteral(elements: seq<APInt>)

  datatype ParseResult = Parsed(op: ConstantOp) | EmptyDenseList

  /** A parsed literal with the zero case cut to `MIN_BITWIDTH` bits. */
  function AdjustZero(lit: APInt): (r: APInt)
    ensures r.value == lit.value
    ensures IsZero(lit) ==> r.width == MIN_BITWIDTH
    ensures !IsZero(lit) ==> r == lit
  {
    if IsZero(lit) then ZextOrTrunc(lit, MIN_BITWIDTH) else lit
  }

  /** The running maximum of the adjusted widths, left to right. */
  function MaxAdjustedWidth(lits: seq<APInt>): u32
  {
    if lits == [] then 0
    else MaxU32(MaxAdjustedWidth(lits[..|lits| - 1]), AdjustZero(lits[|lits| - 1]).width)
  }

  lemma {:induction false} MaxAdjustedWidthIsMaximum(lits: seq<APInt>)
    ensures forall k :: 0 <= k < |lits| ==> AdjustZero(lits[k]).width <= MaxAdjustedWidth(lits)
    ensures lits != [] ==> exists k :: 0 <= k < |lits| && AdjustZero(lits[k]).width == MaxAdjustedWidth(lits)
  {
    if lits != [] {
      var init := lits[..|lits| - 1];
      MaxAdjustedWidthIsMaximum(init);
      assert forall k :: 0 <= k < |init| ==> init[k] == lits[k];
      if MaxAdjustedWidth(lits) != AdjustZero(lits[|lits| - 1]).width {
        var k :| 0 <= k < |init| && AdjustZero(init[k]).width == MaxAdjustedWidth(init);
        assert lits[k] == init[k];
      }
    }
  }

  /** The width rules of `ConstantOp::parse` for a dense list: an empty list
      is rejected; otherwise the shape is `[n]`, every element keeps its value
      and takes the largest adjusted width in the list. */
  lemma {:induction false} DenseParseWidths(elements: seq<APInt>, ty: ConstantType)
    ensures ParseConstantSpec(DenseLiteral(elements), ty).EmptyDenseList? <==> elements == []
    ensures elements != [] ==>
      var r := ParseConstantSpec(DenseLiteral(elements), ty);
      var value := r.op.value;
      && r.op.ty == ty
      && value.DenseIntElementsAttr?
      && value.shape == [|elements|]
      && |value.values| == |elements|
      && (forall k :: 0 <= k < |elements| ==>
            value.values[k].value == elements[k].value && value.values[k].width == value.elementWidth)
      && (forall k :: 0 <= k < |elements| ==> AdjustZero(elements[k]).width <= value.elementWidth)
      && (exists k :: 0 <= k < |elements| && AdjustZero(elements[k]).width == value.elementWidth)
  {
    if elements != [] {
      MaxAdjustedWidthIsMaximum(elements);
    }
  }

  /** The elements of a dense list as `ConstantOp::parse` leaves them. */
  function WidenedElements(elements: seq<APInt>): (values: seq<APInt>)
  {
    var maxWidth := MaxAdjustedWidth(elements);
    seq(|elements|, k requires 0 <= k < |elements| => ZextOrTrunc(AdjustZero(elements[k]), maxWidth))
  }

  /** What `ConstantOp::parse` builds from a parsed literal and type. */
  function ParseConstantSpec(lit: Literal, ty: ConstantType): ParseResult
  {
    match lit
    case ScalarLiteral(v) =>
      Parsed(ConstantOp(IntegerAttr(AdjustZero(v)), ty))
    case DenseLiteral(elements) =>
      if elements == [] then EmptyDenseList
      else
        Parsed(ConstantOp(DenseIntElementsAttr([|elements|], MaxAdjustedWidth(elements),
                                               WidenedElements(elements)), ty))
  }

  /** The first loop of the dense case of `ConstantOp::parse`: cut each zero
      to `MIN_BITWIDTH` bits in place while tracking the maximum width. */
  method AdjustZerosInPlace(parsedInts: array<APInt>) returns (maxWidth: u32)
    modifies parsedInts
    ensures forall k :: 0 <= k < parsedInts.Length ==> parsedInts[k] == AdjustZero(old(parsedInts[k]))
    ensures maxWidth == MaxAdjustedWidth(old(parsedInts[..]))
  {
    ghost var parsed := parsedInts[..];
    maxWidth := 0;
    for i := 0 to parsedInts.Length
      invariant forall k :: 0 <= k < i ==> parsedInts[k] == AdjustZero(parsed[k])
      invariant forall k :: i <= k < parsedInts.Length ==> parsedInts[k] == parsed[k]
      invariant maxWidth == MaxAdjustedWidth(parsed[..i])
    {
      assert parsed[..i + 1][..i] == parsed[..i];
      parsedInts[i] := AdjustZero(parsedInts[i]);
      maxWidth := MaxU32(maxWidth, parsedInts[i].width);
    }
    assert parsed[..parsedInts.Length] == parsed;
  }

  /** The second loop: `zextOrTrunc` every element in place to `width`. */
  method ZextOrTruncInPlace(parsedInts: array<APInt>, width: u32)
    modifies parsedInts
    ensures forall k :: 0 <= k < parsedInts.Length ==> parsedInts[k] == ZextOrTrunc(old(parsedInts[k]), width)
  {
    for i := 0 to parsedInts.Length
      invariant forall k :: 0 <= k < i ==> parsedInts[k] == ZextOrTrunc(old(parsedInts[k]), width)
      invariant forall k :: i <= k < parsedInts.Length ==> parsedInts[k] == old(parsedInts[k])
    {
      parsedInts[i] := ZextOrTrunc(parsedInts[i], width);
    }
  }

  /** The dense case of `ConstantOp::parse` on the parsed integers: the
      vector the parser filled, adjusted and then widened in place. */
  method AdjustDenseWidths(elements: seq<APInt>) returns (maxWidth: u32, values: seq<APInt>)
    ensures maxWidth == MaxAdjustedWidth(elements)
    ensures values == WidenedElements(elements)
  {
    var parsedInts := new APInt[|elements|](k requires 0 <= k < |elements| => elements[k]);
    assert parsedInts[..] == elements;
    maxWidth := AdjustZerosInPlace(parsedInts);
    ZextOrTruncInPlace(parsedInts, maxWidth);
    values := parsedInts[..];
  }

  /** `ConstantOp::parse` on an already tokenized literal: the scalar case
      adjusts a zero; the dense case rejects an empty list and otherwise
      builds a rank-1 attribute of the adjusted, widened elements. */
  method ParseConstant(lit: Literal, ty: ConstantType) returns (r: ParseResult)
    ensures r == ParseConstantSpec(lit, ty)
  {
    match lit
    case ScalarLiteral(v) =>
      r := Parsed(ConstantOp(IntegerAttr(AdjustZero(v)), ty));
    case DenseLiteral(elements) =>
      if elements == [] {
        return EmptyDenseList;
      }
      var maxWidth, values := AdjustDenseWidths(elements);
      r := Parsed(ConstantOp(DenseIntElementsAttr([|elements|], maxWidth, values), ty));
  }

  /** A parsed constant passes `ConstantOp::verify` exactly when its declared
      type has the matching kind, a dense list's type has the one static
      extent `n`, and the storage width holds the parsed width. */
  lemma ParsedConstantVerifies(lit: Literal, ty: ConstantType)
    requires ParseConstantSpec(lit, ty).Parsed?
    ensures var op := ParseConstantSpec(lit, ty).op;
      VerifyConstant(op.ty, op.value).Success? <==>
        match lit
        case ScalarLiteral(v) =>
          ty.ScalarType? && AdjustZero(v).width <= ty.mod.StorageWidth()
        case DenseLiteral(elements) =>
          ty.ShapedType? && ty.dims == [Static(|elements|)]
          && MaxAdjustedWidth(elements) <= ty.mod.StorageWidth()
  {
  }

  // ---------------------------------------------------------------------
  // Worked examples
  // ---------------------------------------------------------------------

  /** Modulus 7 has 3 active bits: width 3 leaves no spare bit, width 4 does. */
  lemma ModulusSevenNeedsWidthFour()
    ensures VerifyModArithType(ModArithType(Bits(3, 7))).Failure?
    ensures VerifyModArithType(ModArithType(Bits(4, 7))).Success?
  {
    assert ActiveBits(7) == 3;
  }

  /** A 16-bit modular operand extracts only to a 16-bit integer. */
  lemma ExtractNeedsEqualWidth(modulus: APInt)
    requires modulus.width == 16 && modulus.value == 17
    ensures VerifyExtract(ModArithType(modulus), 8) == Failure(WidthMismatch(8, 16))
    ensures VerifyExtract(ModArithType(modulus), 32) == Failure(WidthMismatch(32, 16))
    ensures VerifyExtract(ModArithType(modulus), 16) == Success
  {
    assert Pow2(15) == 32768;
  }

  /** Modulus 17 gives w = activeBits(16) = 5: input widths 5 to 10 pass,
      4 and 11 fail. */
  lemma BarrettModulusSeventeen(b: u32)
    ensures VerifyBarrettReduce(IntegerType(b), Bits(8, 17)).Success? <==> 5 <= b <= 10
    ensures VerifyBarrettReduce(RankedTensorType(b), Bits(8, 17)).Success? <==> 5 <= b <= 10
  {
    assert ActiveBits(16) == 5;
    assert Pow2(7) == 128;
  }

  /** A negative modulus is reported only once the range check has passed. */
  lemma BarrettNegativeAfterRange()
    ensures VerifyBarrettReduce(IntegerType(4), Bits(8, 200)) == Failure(BarrettWidthOutOfRange(4, 8))
    ensures VerifyBarrettReduce(IntegerType(8), Bits(8, 200)) == Failure(BarrettModulusNotPositive(Bits(8, 200)))
  {
    assert ActiveBits(199) == 8;
    assert Pow2(7) == 128;
  }

  /** As written, a zero modulus passes: `0 - 1` wraps to all ones, so
      w is the full width, and `slt(0)` is false for zero.  The corrected
      check rejects it. */
  lemma BarrettZeroModulusAccepted()
    ensures VerifyBarrettReduce(IntegerType(8), Bits(8, 0)) == Success
    ensures VerifyBarrettReducePositive(IntegerType(8), Bits(8, 0)) == Failure(BarrettModulusNotPositive(Bits(8, 0)))
  {
    assert ActiveBits(255) == 8;
    assert Pow2(7) == 128;
  }

  /** A zero literal, which the integer parser yields at 64 bits, becomes a
      4-bit zero; a dense list parsed as a 64-bit 0, a 2-bit 3 and a 7-bit 100
      is widened to three 7-bit elements, 7 being its widest adjusted width. */
  lemma ParseExamples(ty: ConstantType)
    ensures ParseConstantSpec(ScalarLiteral(Bits(64, 0)), ty).op.value == IntegerAttr(Bits(4, 0))
    ensures var r := ParseConstantSpec(DenseLiteral([Bits(64, 0), Bits(2, 3), Bits(7, 100)]), ty);
            r.Parsed? && r.op.value == DenseIntElementsAttr([3], 7, [Bits(7, 0), Bits(7, 3), Bits(7, 100)])
  {
    var elements: seq<APInt> := [Bits(64, 0), Bits(2, 3), Bits(7, 100)];
    assert elements[..2][..1] == [Bits(64, 0)];
    assert elements[..3][..2] == elements[..2];
    assert MaxAdjustedWidth(elements[..1]) == 4;
    assert MaxAdjustedWidth(elements[..2]) == 4;
    assert MaxAdjustedWidth(elements) == 7;
  }
}
