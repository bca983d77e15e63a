/**
 The `set_gamma` hook: each of the 14 parameters of every gamma curve is
 masked in place with its own bit mask, so that out-of-range values are
 corrected rather than rejected, and each curve is then written with one
 command, positive-voltage curve first.
 */
module GammaProgrammer {
  import opened Events
  import opened Registers
  import opened Panel

  /** Bitwise AND of two non-negative integers, bit by bit from the least
      significant. */
  function And(a: nat, b: nat): nat
    decreases a
  {
    if a == 0 || b == 0 then 0
    else 2 * And(a / 2, b / 2) + (if a % 2 == 1 && b % 2 == 1 then 1 else 0)
  }

  /** AND never exceeds either operand. */
  lemma {:induction false} AndBelow(a: nat, b: nat)
    ensures And(a, b) <= a && And(a, b) <= b
    decreases a
  {
    if a != 0 && b != 0 {
      AndBelow(a / 2, b / 2);
    }
  }

  /** ANDing with the same mask twice is ANDing once. */
  lemma {:induction false} AndIdempotent(a: nat, b: nat)
    ensures And(And(a, b), b) == And(a, b)
    decreases a
  {
    if a != 0 && b != 0 {
      AndIdempotent(a / 2, b / 2);
      assert And(a, b) / 2 == And(a / 2, b / 2);
    }
  }

  /** `2` to the power `n`. */
  function Pow2(n: nat): nat
  {
    if n == 0 then 1 else 2 * Pow2(n - 1)
  }

  /** A value that fits in `n` bits is kept whole by a mask of `n` low one-bits. */
  lemma {:induction false} AndLowBits(v: nat, n: nat)
    requires v < Pow2(n)
    ensures And(v, Pow2(n) - 1) == v
    decreases n
  {
    if v != 0 {
      assert (Pow2(n) - 1) / 2 == Pow2(n - 1) - 1;
      AndLowBits(v / 2, n - 1);
    }
  }

  /** Per-position masks for the 14 parameters of a gamma curve; the same for
      the positive and the negative voltage curve. */
  const GammaParMask: seq<nat> := [
    0xFF, // V63[3:0], V0[3:0]
    0x3F, // V1[5:0]
    0x3F, // V2[5:0]
    0x1F, // V4[4:0]
    0x1F, // V6[4:0]
    0x3F, // J0[1:0], V13[3:0]
    0x7F, // V20[6:0]
    0x77, // V36[2:0], V27[2:0]
    0x7F, // V43[6:0]
    0x3F, // J1[1:0], V50[3:0]
    0x1F, // V57[4:0]
    0x1F, // V59[4:0]
    0x3F, // V61[5:0]
    0x3F  // V62[5:0]
  ]

  /** Number of parameters of one curve. */
  const NumValues: int := 14

  /** The mask that applies to entry `k` of a curves array. */
  function PositionMask(k: nat): nat
  {
    GammaParMask[k % NumValues]
  }

  /** Entry `k` of a curves array after masking. */
  function MaskEntry(v: U32, k: nat): U32
  {
    AndBelow(v, PositionMask(k));
    And(v, PositionMask(k))
  }

  /** Entry `c + j` of a curves array is position `j` of the curve starting at `c`. */
  lemma PositionMaskInCurve(c: nat, j: nat)
    requires c % NumValues == 0 && j < NumValues
    ensures PositionMask(c + j) == GammaParMask[j]
  {
    assert (c + j) % NumValues == j;
  }

  /** Every mask fits in a byte. */
  lemma MasksAreBytes(j: nat)
    requires j < NumValues
    ensures GammaParMask[j] < 0x100
  {
  }

  /** A masked value lies within its mask, so it is a byte, and masking it
      again changes nothing. */
  lemma MaskEntryProperties(v: U32, k: nat)
    ensures MaskEntry(v, k) <= PositionMask(k) < 0x100
    ensures MaskEntry(MaskEntry(v, k), k) == MaskEntry(v, k)
  {
    AndBelow(v, PositionMask(k));
    AndIdempotent(v, PositionMask(k));
    MasksAreBytes(k % NumValues);
  }

  /** Every parameter of the first `numCurves` curves is already within its
      position's mask. */
  predicate IsMasked(curves: seq<U32>, numCurves: int)
    requires numCurves * NumValues <= |curves|
  {
    forall k :: 0 <= k < numCurves * NumValues ==> MaskEntry(curves[k], k) == curves[k]
  }

  /** The command that programs curve `i`: PVGAMCTRL for the first, the next
      opcode for the second, and so on. */
  function GammaCommand(i: nat): int
  {
    Pvgamctrl + i
  }

  /** The 14 values of curve `i`. */
  function Curve(curves: seq<U32>, i: nat): seq<int>
    requires (i + 1) * NumValues <= |curves|
  {
    curves[i * NumValues .. i * NumValues + NumValues]
  }

  /** The writes that program curves `0 .. numCurves - 1` of `curves`. */
  function GammaWrites(curves: seq<U32>, numCurves: int): (r: seq<Event>)
    requires numCurves * NumValues <= |curves|
    ensures |r| == if numCurves < 0 then 0 else numCurves
    decreases numCurves
  {
    if numCurves <= 0 then []
    else
      GammaWrites(curves, numCurves - 1)
        + [Write(GammaCommand(numCurves - 1), Curve(curves, numCurves - 1))]
  }

  /** Write `i` of `GammaWrites` programs curve `i` with its 14 values, so the
      curves are written one per command, in increasing order. */
  lemma {:induction false} GammaWritesAt(curves: seq<U32>, numCurves: int, i: int)
    requires numCurves * NumValues <= |curves|
    requires 0 <= i < numCurves
    ensures GammaWrites(curves, numCurves)[i] == Write(Pvgamctrl + i, Curve(curves, i))
    decreases numCurves
  {
    if i < numCurves - 1 {
      GammaWritesAt(curves, numCurves - 1, i);
    }
  }

  /** `GammaWrites` of the first `numCurves` curves only reads those curves. */
  lemma {:induction false} GammaWritesPrefix(a: seq<U32>, b: seq<U32>, numCurves: int)
    requires numCurves * NumValues <= |a| && numCurves * NumValues <= |b|
    requires forall k :: 0 <= k < numCurves * NumValues ==> a[k] == b[k]
    ensures GammaWrites(a, numCurves) == GammaWrites(b, numCurves)
    decreases numCurves
  {
    if numCurves > 0 {
      GammaWritesPrefix(a, b, numCurves - 1);
      assert Curve(a, numCurves - 1) == Curve(b, numCurves - 1);
    }
  }

  /** Programming one more curve appends its write, provided the curves
      already programmed have not changed. */
  lemma GammaWritesExtend(before: seq<U32>, after: seq<U32>, i: nat)
    requires (i + 1) * NumValues <= |before| == |after|
    requires forall k :: 0 <= k < i * NumValues ==> before[k] == after[k]
    ensures GammaWrites(after, i + 1) == GammaWrites(before, i) + [Write(GammaCommand(i), Curve(after, i))]
  {
    GammaWritesPrefix(before, after, i);
  }

  /** The result of masking is a fixed point of masking, and masking a fixed
      point leaves it alone. */
  lemma MaskedCurvesAreMasked(curves: seq<U32>, masked: seq<U32>, numCurves: int)
    requires numCurves * NumValues <= |curves| == |masked|
    requires forall k :: 0 <= k < |curves| ==>
      masked[k] == if k < numCurves * NumValues then MaskEntry(curves[k], k) else curves[k]
    ensures IsMasked(masked, numCurves)
    ensures IsMasked(curves, numCurves) ==> masked == curves
  {
    forall k | 0 <= k < numCurves * NumValues
      ensures MaskEntry(masked[k], k) == masked[k]
    {
      MaskEntryProperties(curves[k], k);
    }
  }

  /** The inner loop of `set_gamma`: masks the 14 values of the curve that
      starts at index `c`, leaving every other entry alone. */
  method MaskCurve(curves: seq<U32>, c: int) returns (masked: seq<U32>)
    requires 0 <= c && c % NumValues == 0 && c + NumValues <= |curves|
    ensures |masked| == |curves|
    ensures forall k :: 0 <= k < |curves| ==>
      masked[k] == if c <= k < c + NumValues then MaskEntry(curves[k], k) else curves[k]
  {
    masked := curves;
    var j := 0;
    while j < NumValues
      invariant 0 <= j <= NumValues
      invariant |masked| == |curves|
      invariant forall k :: 0 <= k < |curves| ==>
        masked[k] == if c <= k < c + j then MaskEntry(curves[k], k) else curves[k]
    {
      PositionMaskInCurve(c, j);
      AndBelow(masked[c + j], GammaParMask[j]);
      masked := masked[c + j := And(masked[c + j], GammaParMask[j])];
      j := j + 1;
    }
  }

  /** `set_gamma(par, curves)` with `par->gamma.num_curves == numCurves` and
      `par->gamma.num_values == numValues`: returns the status, the writes,
      and the curves array as the hook leaves it. */
  method SetGamma(curves: seq<U32>, numCurves: int, numValues: int)
    returns (status: int, trace: seq<Event>, masked: seq<U32>)
    requires numValues == NumValues
    requires numCurves * numValues <= |curves|
    ensures status == Success
    ensures |masked| == |curves|
    ensures forall k :: 0 <= k < |curves| ==>
      masked[k] == if k < numCurves * NumValues then MaskEntry(curves[k], k) else curves[k]
    ensures trace == GammaWrites(masked, numCurves)
    ensures IsMasked(masked, numCurves)
    ensures IsMasked(curves, numCurves) ==> masked == curves
  {
    masked := curves;
    trace := [];
    var i := 0;
    while i < numCurves
      invariant 0 <= i && (i <= numCurves || i == 0)
      invariant |masked| == |curves|
      invariant forall k :: 0 <= k < |curves| ==>
        masked[k] == if k < i * NumValues then MaskEntry(curves[k], k) else curves[k]
      invariant trace == GammaWrites(masked, i)
    {
      var c := i * numValues;
      ghost var before := masked;
      masked := MaskCurve(masked, c);
      GammaWritesExtend(before, masked, i);
      trace := trace + [Write(Pvgamctrl + i, masked[c .. c + numValues])];
      i := i + 1;
    }
    MaskedCurvesAreMasked(curves, masked, numCurves);
    status := Success;
  }

  /** In a masked curves array, value `j` of curve `i` is at most position
      `j`'s mask. */
  lemma MaskedCurveValue(curves: seq<U32>, numCurves: int, i: nat, j: nat)
    requires numCurves * NumValues <= |curves|
    requires IsMasked(curves, numCurves)
    requires i < numCurves && j < NumValues
    ensures Curve(curves, i)[j] <= GammaParMask[j] < 0x100
  {
    var k := i * NumValues + j;
    assert Curve(curves, i)[j] == curves[k];
    assert MaskEntry(curves[k], k) == curves[k];
    MaskEntryProperties(curves[k], k);
    PositionMaskInCurve(i * NumValues, j);
  }

  /** The parameters `set_gamma` sends for a masked curves array: parameter
      `j` of the write for curve `i` is at most position `j`'s mask, so every
      parameter is a byte. */
  lemma GammaParamsWithinMasks(curves: seq<U32>, numCurves: int, i: int, j: int)
    requires numCurves * NumValues <= |curves|
    requires IsMasked(curves, numCurves)
    requires 0 <= i < numCurves && 0 <= j < NumValues
    ensures GammaWrites(curves, numCurves)[i] == Write(Pvgamctrl + i, Curve(curves, i))
    ensures Curve(curves, i)[j] <= GammaParMask[j]
    ensures IsByte(Curve(curves, i)[j])
  {
    GammaWritesAt(curves, numCurves, i);
    MaskedCurveValue(curves, numCurves, i, j);
  }

  /** With the conventional two curves, the positive-voltage curve goes to
      PVGAMCTRL and the negative-voltage curve to NVGAMCTRL. */
  lemma TwoCurvesUseBothGammaRegisters(curves: seq<U32>)
    requires 2 * NumValues <= |curves|
    ensures GammaWrites(curves, 2) == [Write(Pvgamctrl, curves[0 .. 14]), Write(Nvgamctrl, curves[14 .. 28])]
  {
  }

  /** Replayed on the controller, the writes of `set_gamma` leave curve `i` in
      register PVGAMCTRL + i, and change no other register and no mode. */
  lemma {:induction false} GammaProgramsRegisters(p: Panel, curves: seq<U32>, numCurves: int)
    requires numCurves * NumValues <= |curves|
    ensures Run(p, GammaWrites(curves, numCurves)).displayOn == p.displayOn
    ensures Run(p, GammaWrites(curves, numCurves)).asleep == p.asleep
    ensures Run(p, GammaWrites(curves, numCurves)).inverted == p.inverted
    ensures forall i: nat :: i < numCurves ==>
      GammaCommand(i) in Run(p, GammaWrites(curves, numCurves)).regs
      && Run(p, GammaWrites(curves, numCurves)).regs[GammaCommand(i)] == Curve(curves, i)
    ensures forall op :: op in p.regs && !(Pvgamctrl <= op < Pvgamctrl + numCurves) ==>
      op in Run(p, GammaWrites(curves, numCurves)).regs
      && Run(p, GammaWrites(curves, numCurves)).regs[op] == p.regs[op]
    ensures forall op :: op in Run(p, GammaWrites(curves, numCurves)).regs ==>
      op in p.regs || Pvgamctrl <= op < Pvgamctrl + numCurves
    decreases numCurves
  {
    if numCurves > 0 {
      var prev := GammaWrites(curves, numCurves - 1);
      var w := Write(GammaCommand(numCurves - 1), Curve(curves, numCurves - 1));
      assert GammaWrites(curves, numCurves) == prev + [w];
      RunAppend(p, prev, [w]);
      RunSingle(Run(p, prev), w);
      GammaProgramsRegisters(p, curves, numCurves - 1);
    }
  }
}
