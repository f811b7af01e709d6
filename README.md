# Modular-arithmetic verifiers, extract lowering and dead-memref removal

A Dafny model of three pieces of an FHE compiler (HEIR) built on MLIR:

- **ModArith** (`mod_arith.dfy`, on `apints.dfy`). A modular type holds its
  modulus as an APInt. The APInt's bit width is the storage width of every
  value of the type. The model covers:
  - the width check shared by add, sub, mul, mac and reduce;
  - the extract check (equal widths first, then the width check);
  - the Barrett-reduction input-width and modulus checks;
  - the constant verifier;
  - the width rules of the constant parser (zero cut to 4 bits, dense lists
    widened to their widest element, shape `[n]`).

  APInts are `(width, value)` pairs with `value < 2^width`. C++ `unsigned`
  arithmetic on widths is written out: `bitWidth - 1` wraps at width 0, and
  `2 * w` wraps modulo 2^32. Verifiers return `Success` or
  `Failure(diagnostic)`, so the contracts can say which check fires first.
- **LwePatterns** (`lwe_patterns.dfy`). `ConvertExtract` rewrites an extract at
  a constant offset. It builds a one-hot mask as long as the ring degree,
  with the hot entry at `(unsigned int)offset`, and creates, in this order:
  constant, encode, multiply-by-plaintext, rotate, reinterpret. The extract
  is then replaced by the reinterpret. `LowerExtract` is the specification of
  what the pattern creates. The method `ConvertExtract` does it step by step
  on a `Rewriter`.
- **UnusedMemRef** (`unused_memref.dfy`). An allocation whose users are all
  affine writes, memref stores or ops whose one effect on the memref is a
  free is erased, together with those users.
- **Rewrite** (`rewrite.dfy`) holds the part of MLIR's pattern rewriter both
  patterns use. It keeps the live ops by id, creates ops under fresh ids,
  erases ops (keeping an ordered log), and replaces an op by another op's
  result.

## Model

| member | source | states |
|---|---|---|
| `APInts.ActiveBitsBound` | lib/Dialect/ModArith/IR/ModArithDialect.cpp:54 | a value has at most k active bits exactly when it is below 2^k |
| `ModArith.VerifyModArithType` | lib/Dialect/ModArith/IR/ModArithDialect.cpp:50-61 | passes exactly when the modulus is below 2^(width-1), so one high bit is spare; at width 0 the wrapped `width - 1` lets it pass; a failure reports the width and the active bits |
| `ModArith.VerifySameWidth` | lib/Dialect/ModArith/IR/ModArithDialect.cpp:63-74 | passes exactly when the integer width equals the storage width; a failure reports both widths |
| `ModArith.VerifyExtract` | lib/Dialect/ModArith/IR/ModArithDialect.cpp:76-82 | passes exactly when the widths are equal and the operand type has its spare bit; a width mismatch is reported first, and with equal widths a too-wide modulus reports the width and the active bits |
| `ModArith.VerifyArith` | lib/Dialect/ModArith/IR/ModArithDialect.cpp:84-102 | add/sub/mul/mac/reduce pass exactly when the result type has its spare bit; nothing else is consulted, and a failure reports the result type's width and the modulus's active bits |
| `ModArith.VerifyBarrettReduce` | lib/Dialect/ModArith/IR/ModArithDialect.cpp:104-127 | passing implies w <= b <= 2w (w = active bits of modulus - 1, b = tensor element or integer width) and a modulus that is not signed-negative; an exact iff when 2w fits 32 bits; an out-of-range width is reported before a negative modulus, and an in-range negative modulus reports the modulus |
| `ModArith.VerifyBarrettReducePositive` | lib/Dialect/ModArith/IR/ModArithDialect.cpp:123-126 | corrected check: passing implies a positive modulus; it agrees with the as-written check on every nonzero modulus |
| `ModArith.VerifyConstant` | lib/Dialect/ModArith/IR/ModArithDialect.cpp:182-220 | passes exactly when value and type agree (scalar integer no wider than the storage width; dense value under a shaped type with the same static extents and no wider elements); a kind mismatch is reported first, a dense value whose shape differs from a non-static or unequal type shape reports the shape mismatch, and a dense value whose shape matches but whose elements are wider than the storage width reports the element width and the storage width |
| `ModArith.AdjustZero` | lib/Dialect/ModArith/IR/ModArithDialect.cpp:154-155 | a zero literal becomes a 4-bit zero; any other literal is kept as parsed |
| `ModArith.MaxAdjustedWidthIsMaximum` | lib/Dialect/ModArith/IR/ModArithDialect.cpp:152-157 | the tracked width bounds every adjusted element width and is attained by one of them |
| `ModArith.AdjustZerosInPlace` | lib/Dialect/ModArith/IR/ModArithDialect.cpp:152-157 | the first loop adjusts every element in place and returns the maximum adjusted width |
| `ModArith.ZextOrTruncInPlace` | lib/Dialect/ModArith/IR/ModArithDialect.cpp:158-160 | the second loop resizes every element in place to the given width |
| `ModArith.AdjustDenseWidths` | lib/Dialect/ModArith/IR/ModArithDialect.cpp:136-160 | the parsed vector ends as every element adjusted and widened to the maximum adjusted width |
| `ModArith.ParseConstant` | lib/Dialect/ModArith/IR/ModArithDialect.cpp:129-180 | builds exactly the constant its specification describes, for scalar and dense literals |
| `ModArith.DenseParseWidths` | lib/Dialect/ModArith/IR/ModArithDialect.cpp:148-164 | an empty dense list is rejected; otherwise the shape is `[n]` and every element keeps its value; all elements take one width, the largest adjusted width in the list |
| `ModArith.ParsedConstantVerifies` | lib/Dialect/ModArith/IR/ModArithDialect.cpp:161-220 | a parsed constant passes verification exactly when its type has the matching kind (dense: the single extent n) and the storage width holds the parsed width |
| `ModArith.ModulusSevenNeedsWidthFour` | lib/Dialect/ModArith/IR/ModArithDialect.cpp:51-61 | modulus 7 fails at width 3 and passes at width 4 |
| `ModArith.ExtractNeedsEqualWidth` | lib/Dialect/ModArith/IR/ModArithDialect.cpp:76-82 | a 16-bit operand rejects 8- and 32-bit results and accepts a 16-bit one |
| `ModArith.BarrettModulusSeventeen` | lib/Dialect/ModArith/IR/ModArithDialect.cpp:104-122 | modulus 17 accepts input widths 5 to 10 only, for tensor and integer inputs |
| `ModArith.BarrettNegativeAfterRange` | lib/Dialect/ModArith/IR/ModArithDialect.cpp:116-126 | a signed-negative modulus is reported only once the width range passed |
| `ModArith.BarrettZeroModulusAccepted` | lib/Dialect/ModArith/IR/ModArithDialect.cpp:115-126 | as written, modulus 0 at width 8 with an 8-bit input passes; the corrected check rejects it |
| `ModArith.ParseExamples` | lib/Dialect/ModArith/IR/ModArithDialect.cpp:148-176 | a zero literal (parsed at 64 bits) becomes a 4-bit zero; a list parsed as a 64-bit 0, a 2-bit 3 and a 7-bit 100 widens to three 7-bit elements of shape `[3]` |
| `LwePatterns.MaskPosition` | lib/Dialect/LWE/IR/LWEPatterns.h:66 | the compared slot is the offset's low 32 bits; an offset in [0, 2^32) is its own position |
| `LwePatterns.BuildOneHotMask` | lib/Dialect/LWE/IR/LWEPatterns.h:63-74 | the loop yields exactly the one-hot mask |
| `LwePatterns.OneHotMaskEntries` | lib/Dialect/LWE/IR/LWEPatterns.h:61-74 | the mask has `degree` entries, each 0 or 1; an entry is 1 iff its index is the mask position; entries are integer attributes iff the element type is integer or index |
| `LwePatterns.OneHotMaskCount` | lib/Dialect/LWE/IR/LWEPatterns.h:65-66 | exactly one entry is hot when the 32-bit position is below the degree, none otherwise |
| `LwePatterns.OneHotMaskSelectsSlot` | lib/Dialect/LWE/IR/LWEPatterns.h:77-89 | multiplying cleartext slots by the mask keeps the slot at the position and zeroes all others |
| `LwePatterns.MaskPositionWraps` | lib/Dialect/LWE/IR/LWEPatterns.h:46-66 | offset -1 gives an all-zero mask of degree 8; offset 3 - 2^32 wraps to slot 3 |
| `LwePatterns.LowerExtractFails` | lib/Dialect/LWE/IR/LWEPatterns.h:34-45 | the rewrite fails, with the offset diagnostic, exactly when the offset is not a constant integer |
| `LwePatterns.LowerExtractShape` | lib/Dialect/LWE/IR/LWEPatterns.h:46-98 | on success there are five ops in order: the degree-long mask, an encode with the input's application data, encoding and ring, a multiply of the input, a rotate by the offset, a reinterpret to the result type; the mask entries are exactly the one-hot mask of the output element type; the encode reads the mask, the multiply reads the input and the encode, the rotate reads the multiply, the reinterpret reads the rotate |
| `LwePatterns.NonScalarElementStillLowered` | lib/Dialect/LWE/IR/LWEPatterns.h:53-74 | an index element type (neither integer nor float) is diagnosed, yet the ops are still created, with `degree` integer mask entries |
| `LwePatterns.LowerExtractDegreeEight` | lib/Dialect/LWE/IR/LWEPatterns.h:61-90 | degree 8, offset 3: mask `[0,0,0,1,0,0,0,0]`, rotation by 3 |
| `LwePatterns.ConvertExtract` | lib/Dialect/LWE/IR/LWEPatterns.h:27-99 | on failure the IR is untouched; on success the five ops exist under fresh ids, the extract is erased and replaced by the reinterpret, and success is returned |
| `UnusedMemRef.AnyLiveUserIff` | lib/Transforms/UnusedMemRef/UnusedMemRef.cpp:22-26 | the `any_of` holds exactly when some user is neither an affine write, a store, nor a free-only op |
| `UnusedMemRef.OnlyDeadUsersRemovable` | lib/Transforms/UnusedMemRef/UnusedMemRef.cpp:22-28 | when every user is a dead user (including when there are none) the pattern does not bail out |
| `UnusedMemRef.DeadUserExamples` | lib/Transforms/UnusedMemRef/UnusedMemRef.cpp:25 | a free-only op is a dead user; an op that also reads, declares no effects, or has no interface keeps the memref alive |
| `UnusedMemRef.RemoveUnusedMemref` | lib/Transforms/UnusedMemRef/UnusedMemRef.cpp:19-35 | fails exactly when some user keeps the memref alive, then changes nothing; otherwise erases every user in order, then the alloc, and nothing else |

## Findings

| source | as written | input that shows it | evidently intended | confidence | as-written member | corrected member |
|---|---|---|---|---|---|---|
| lib/Dialect/ModArith/IR/ModArithDialect.cpp:123 | `getModulus().slt(0)` rejects only negative moduli | modulus `0 : i8`, input `i8`: `0 - 1` wraps to 255, so w = 8 and the range passes; 0 is not negative, so the op verifies | reject every modulus that is not positive, as the diagnostic text says | medium; not executed | `ModArith.BarrettZeroModulusAccepted` (about `ModArith.VerifyBarrettReduce`) | `ModArith.VerifyBarrettReducePositive` |

## Behaviour of note

- The constant verifier stops at the first failing check. It reports one
  diagnostic even when the op has several defects.
- Barrett reduction rejects only a signed-negative modulus; zero passes (see
  Findings).
- An extract whose element type is not an integer or float is diagnosed, yet
  the rewrite still goes ahead.
- A negative or out-of-range offset is not rejected. Its low 32 bits pick the
  mask slot.

## Left out

- ModArith.VerifyBarrettReduce: the exact iff is stated only for w < 2^31. For larger w, the wrapped `2 * w` makes the range check always fail, and the contract states only that passing implies the range.
- UnusedMemRef.RemoveUnusedMemref: each user is listed once (`requires` distinct users). An op that uses the memref twice appears twice in MLIR's user list, and erasing it twice is undefined behaviour in MLIR itself.
- Dialect registration, the textual printer, and token-level parsing are not modelled. `ConstantOp::parse` takes the already-parsed integer list and type.
- The greedy rewrite driver (`runOnOperation`) is not modelled: fixpoint iteration belongs to MLIR.
- The CKKS dialect's verifiers are not modelled. They delegate to helpers that are not part of this model.
- Use-list rewiring by `replaceOp` is recorded as `replacedBy[op] := replacement`. Other ops' operands are not rewritten.
- The mask's meaning is stated on cleartext slots only (`OneHotMaskSelectsSlot`). Encode, multiply and rotate have no homomorphic semantics here.
- Mask float entries are tagged 0/1, with no float values. MLIR's assertion when `getFloatAttr` gets a non-float element type is not modelled.
- Diagnostic message text, source locations and the MLIR context are not modelled.
- `hasSingleEffect<Free>` is MLIR library code. It is modelled as "declares effects, at least one on the memref, and all of those are frees".
- Assertion-guarded cases are excluded by the datatypes, not modelled:
  - a Barrett input that is neither a ranked tensor nor an integer;
  - a dense attribute without a static shape;
  - a `ConstantOp` whose element type is not modular;
  - `getInt()` on an offset attribute wider than 64 bits.
- `trunc(4)` asserts in LLVM when a zero literal is narrower than 4 bits. The parser always gives zero 64 bits, so the model returns the 4-bit zero.
