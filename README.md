# Fixed-point math kernel and observer list, modelled in Dafny

This project models two components of a small STM32 firmware and proves
properties about them.

- **The fixed-point math kernel** (`fpmath`):
  - The header macros are modelled as functions on integers:
    - the Q-format multiply and divide;
    - the absolute value;
    - the format conversions;
    - the table-driven sine and cosine.
  - The algorithms of `fpmath.c` that loop are modelled as methods with
    loops, each proved against a specification function:
    - the digit-by-digit integer square root;
    - 2-D and 3-D table interpolation;
    - the CORDIC cartesian-to-polar conversion.
  - The Clarke transform has no loop. It is a method that writes its
    output structure, proved against a function.
- **The observer list.** A subject holds an intrusive, doubly linked list
  of observers. Attach and detach rewrite the links in place; notify walks
  them.
- **The observer demo.** A counter that toggles an ON/OFF state and
  notifies the subject on every millionth call.

The files:

- `arith.dfy`: the integer lemmas the other modules share (powers of two,
  division brackets).
- `fixed_point.dfy`: C semantics and the header macros.
  - The C semantics modelled:
    - truncating `/`;
    - arithmetic `>>`;
    - narrowing to `int16_t`.
  - Each macro requires that its intermediates fit in 32 bits.
- `trig.dfy`: the 256-entry Q15 sine table, `FPM_tSin` and `FPM_tCos`.
- `sqrt.dfy`: `FPM_ulSqrt`, with the loop invariant stated on the top 2k
  bits of the radicand.
- `interpolate.dfy`: `FPM_tInterpolate2D` and `FPM_tInterpolate3D`.
  - The pointer walks of the 3-D search become indices into the arrays.
- `cordic.dfy`: `FPM_vCart2Pol`.
- `clarke.dfy`: `FPM_vClarkeTrans`.
- `observer.dfy`: `Observer.c`, modelled as follows.
  - Observers and the subject are classes whose link fields the methods
    rewrite.
  - The list is specified by its forward chain, a ghost sequence.
  - The file also replays the unit tests' call sequences.
- `obs_example.dfy`: the demo object, with its state machine as a function
  on values.

Behaviour worth noting:

- **Origin input of `FPM_vCart2Pol`.** Input (0, 0) gives magnitude 0 and
  angle 18181.
  - Every micro-rotation sees a non-negative imaginary part and adds its
    step.
  - So the angle is the sum of the first 14 table entries
    (`Cordic.Cart2PolOrigin`).
- **Angle accumulator of `FPM_vCart2Pol`.** The C code narrows the
  accumulator to `int16_t` after every step.
  - The model keeps it as an integer.
  - It stays within ±18181 (`Cordic.LoopStep`), so only the final
    addition of the offset can wrap.
- **Implementation-defined C behaviour.** The model assumes
  two's-complement behaviour:
  - `>>` on a negative value is taken as the arithmetic shift;
  - narrowing to `int16_t` is taken as the wrap modulo 2^16.
- **Split into helper methods.** Some loop bodies and loops are separate
  methods so that each proof stays small. The methods run the same
  statements in the same order:
  - the CORDIC loop body is `Cordic.MicroStep`;
  - the CORDIC loop is `Cordic.FirstRotations` (any number of passes), which `Cordic.MicroRotations` runs for the 14 passes of the source;
  - the 3-D search is `Interpolation.FindCell`.

## Model

| member | source | states |
|---|---|---|
| FixedPoint.CDiv | application/components/fpmath/inc/fpmath.h:411 | C's `/`: the quotient truncated toward zero, with \|q\|·\|b\| ≤ \|a\| < (\|q\|+1)·\|b\| and the sign of a·b, or 0 |
| FixedPoint.Asr | application/components/fpmath/src/fpmath.c:380-381 | `>>` on a signed value keeps the sign and never grows the magnitude |
| FixedPoint.AsrFloor | application/components/fpmath/src/fpmath.c:380-390 | `x >> n` is the floor of x / 2^n |
| FixedPoint.Wrap16 | application/components/fpmath/src/fpmath.c:399 | narrowing to int16: congruent to x modulo 2^16, and x itself when x fits |
| FixedPoint.FpMulQn | application/components/fpmath/inc/fpmath.h:377-406 | `FPM_FpMulQn`: \|r\|·2^n ≤ \|x·y\| < (\|r\|+1)·2^n, and r has the sign of x·y or is 0 |
| FixedPoint.FpMul | application/components/fpmath/inc/fpmath.h:375 | `FPM_FpMul`: the same bracket with 2^12 |
| FixedPoint.FpDivQn | application/components/fpmath/inc/fpmath.h:413-442 | `FPM_FpDivQn`: \|r\|·\|y\| ≤ \|x\|·2^n < (\|r\|+1)·\|y\|, with the sign of x/y, for y ≠ 0 |
| FixedPoint.FpDiv | application/components/fpmath/inc/fpmath.h:411 | `FPM_FpDiv`: the same bracket with 2^12 |
| FixedPoint.FpAbs | application/components/fpmath/inc/fpmath.h:447 | for x ≠ INT32_MIN, the result is ≥ 0 and is x or −x |
| FixedPoint.FpMulQnByOne | application/components/fpmath/inc/fpmath.h:375-406 | multiplying by one (2^n) in Qn returns the operand |
| FixedPoint.FpDivQnByOne | application/components/fpmath/inc/fpmath.h:411-442 | dividing by one (2^n) in Qn returns the operand |
| FixedPoint.FpMulQnNegate | application/components/fpmath/inc/fpmath.h:377-406 | the truncating multiplication is odd: FpMulQn(−x, y) = −FpMulQn(x, y) |
| FixedPoint.QxtoQy | application/components/fpmath/inc/fpmath.h:370 | `FPM_QxtoQy`: for x ≥ y, a truncating division by 2^(x−y) (bracket and sign); for x < y, an exact multiple of 2^(y−x) whose quotient is v |
| FixedPoint.ConvertUpDownRoundTrip | application/components/fpmath/inc/fpmath.h:370 | converting to a wider format and back returns v |
| FixedPoint.ConvertDownUpTruncates | application/components/fpmath/inc/fpmath.h:370 | converting to a narrower format and back gives the multiple of 2^(x−y) next to v toward zero |
| FixedPoint.GQtoQn | application/components/fpmath/inc/fpmath.h:277-366 | each `FPM_GQtoQn`, n = 1..30, as written (Q30 multiplies, Q1 divides), equals QxtoQy(v, 12, n) |
| FixedPoint.QntoGQ | application/components/fpmath/inc/fpmath.h:277-367 | each `FPM_QntoGQ`, n = 1..30, as written, equals QxtoQy(v, n, 12) |
| Trig.SineTabHalfTurn | application/components/fpmath/src/fpmath.c:78-335 | the table has 256 entries and entry i + 128 is −(entry i) |
| Trig.SineTabInRange | application/components/fpmath/src/fpmath.c:78-335 | every table entry lies in [−32768, 32768] |
| Trig.SineIndex | application/components/fpmath/inc/fpmath.h:541-554 | `(uint16_t)Phi >> 8` is in [0, 255] and selects the 256-count band holding Phi mod 2^16 |
| Trig.CosIndex | application/components/fpmath/inc/fpmath.h:562 | the cosine macro's index is in [0, 255] |
| Trig.TableAt | application/components/fpmath/src/fpmath.c:78-335 | a table read is a Q15 value in [−1, 1] |
| Trig.TableHalfTurn | application/components/fpmath/src/fpmath.c:78-335 | reading 128 entries further gives the negated entry |
| Trig.TableQuarterPoints | application/components/fpmath/src/fpmath.c:78-335 | entries 0, 64, 128 and 192 are 0, 32768, 0 and −32768 |
| Trig.Sin | application/components/fpmath/inc/fpmath.h:554 | `FPM_tSin` is in [−32768, 32768] for every angle |
| Trig.Cos | application/components/fpmath/inc/fpmath.h:562 | `FPM_tCos` is in [−32768, 32768] for every angle |
| Trig.IndexShift | application/components/fpmath/inc/fpmath.h:554 | adding k·256 to the angle moves the index by k modulo 256 |
| Trig.SinPeriodic | application/components/fpmath/inc/fpmath.h:554 | Sin(Phi + 65536) = Sin(Phi) |
| Trig.HalfTurnIndex | application/components/fpmath/inc/fpmath.h:554 | adding 32768 to the angle moves the index by half the table |
| Trig.SinHalfTurn | application/components/fpmath/inc/fpmath.h:554 | Sin(Phi + 32768) = −Sin(Phi) |
| Trig.CosIsShiftedSin | application/components/fpmath/inc/fpmath.h:562 | Cos(Phi) = Sin(Phi + 16384) for every Phi |
| Trig.SinCosAtAxes | application/components/fpmath/inc/fpmath.h:554-562 | Sin(0) = 0, Sin(90°) = 32768, Sin(−180°) = 0, Sin(−90°) = −32768, Cos(0) = 32768, Cos(90°) = 0 |
| IntSqrt.UlSqrt | application/components/fpmath/src/fpmath.c:423-445 | `FPM_ulSqrt(n)` returns r with r·r ≤ n < (r+1)·(r+1) for every 32-bit n |
| IntSqrt.SqrtUnique | application/components/fpmath/inc/fpmath.h:463-470 | at most one r satisfies the bracket, so the result is the integer square root |
| IntSqrt.RootBound | application/components/fpmath/inc/fpmath.h:472-474 | the root of a 32-bit number fits 16 bits |
| IntSqrt.IterateRoot | application/components/fpmath/src/fpmath.c:428-444 | after the 16 passes, `ulRoot >> 1` is the floor root of n |
| IntSqrt.IterateKeeps | application/components/fpmath/src/fpmath.c:428-443 | after k passes, ulRoot/2 is the floor root s of the top 2k bits, ulRem their remainder over s², and the radicand holds the unconsumed bits |
| IntSqrt.PassKeeps | application/components/fpmath/src/fpmath.c:430-442 | one pass keeps that invariant and appends one bit to the root |
| IntSqrt.PassSetsBit | application/components/fpmath/src/fpmath.c:434-438 | when the trial value 4s+1 fits in the remainder, the pass sets the root bit |
| IntSqrt.PassClearsBit | application/components/fpmath/src/fpmath.c:439-442 | otherwise the pass leaves the root bit clear |
| IntSqrt.PassShifts | application/components/fpmath/src/fpmath.c:430-433 | the shifts of one pass do not wrap, except the radicand's own shift, which drops the consumed digit |
| IntSqrt.RootPass | application/components/fpmath/src/fpmath.c:434-442 | the root-bit decision extends the root of the top bits by one base-4 digit |
| IntSqrt.SqrtInvEnd | application/components/fpmath/src/fpmath.c:444 | when all 32 bits are consumed, `ulRoot >> 1` is the root |
| IntSqrt.Shl32Wraps | application/components/fpmath/src/fpmath.c:432 | `<<` on uint32_t is multiplication by 2^k modulo 2^32 |
| Interpolation.LinearStep | application/components/fpmath/src/fpmath.c:470-486 | the compound-assignment chain computes the rounded linear step |
| Interpolation.LerpNearest | application/components/fpmath/src/fpmath.c:476-482 | on an ascending segment the step's offset is within half a unit of the exact (x−x0)(y1−y0)/(x1−x0) |
| Interpolation.RoundDivNearest | application/components/fpmath/src/fpmath.c:476-482 | adding ±d/2 by the product's sign before the truncating division rounds to a nearest integer |
| Interpolation.LerpAtStart | application/components/fpmath/src/fpmath.c:470-486 | at x = x0 the step returns y0 |
| Interpolation.LerpAtEnd | application/components/fpmath/src/fpmath.c:470-486 | at x = x1 on an ascending segment the step returns y1 |
| Interpolation.SearchFrom | application/components/fpmath/src/fpmath.c:455-464 | the search from i stops at the first index whose x-value is ≥ x, or at the last segment |
| Interpolation.SegmentIndex | application/components/fpmath/src/fpmath.c:455-464 | the index is in [1, N−1]; every earlier x-value is < x; below N−1 its x-value is ≥ x |
| Interpolation.SegmentIndexUnique | application/components/fpmath/src/fpmath.c:455-464 | that characterisation determines the index |
| Interpolation.SegmentIndexBorders | application/components/fpmath/src/fpmath.c:455-464 | on an ascending table, x ≤ X[1] uses the first segment and x > X[N−2] the last |
| Interpolation.SegmentOfNode | application/components/fpmath/src/fpmath.c:455-464 | the query X[a] selects a segment that ends at a (the first segment for a = 0) |
| Interpolation.Interpolate2D | application/components/fpmath/src/fpmath.c:450-487 | `FPM_tInterpolate2D` returns the rounded linear step on the segment the search selects |
| Interpolation.Interpolation2DAtNode | application/components/fpmath/src/fpmath.c:450-487 | on an ascending table the interpolation returns Y[a] at X[a] |
| Interpolation.Interpolation2DExample | application/components/fpmath/src/fpmath.c:450-487 | table (0,0),(10,100): x = 5 → 50, x = 20 → 200, x = −10 → −100 |
| Interpolation.GridIndex | application/components/fpmath/inc/fpmath.h:101-107 | the z-value of column a, row b lies inside the Nx·Ny grid |
| Interpolation.GridIndexNextRow | application/components/fpmath/src/fpmath.c:531 | the next row starts Nx values further on |
| Interpolation.CornerSteps | application/components/fpmath/src/fpmath.c:534-536 | stepping back 1 or Nx from corner (j, k) reaches corners (j−1, k) and (j, k−1) |
| Interpolation.FindCell | application/components/fpmath/src/fpmath.c:508-532 | the two searches pick the x and y segments of the 2-D search, and ptZX2Y2 ends at z[k·Nx + j] |
| Interpolation.CellReads | application/components/fpmath/src/fpmath.c:534-536 | the four corner reads are in [0, Nx·Ny) and read the selected cell |
| Interpolation.Interpolate3D | application/components/fpmath/src/fpmath.c:492-602 | `FPM_tInterpolate3D` returns the bilinear value on that cell: x-steps along rows k−1 and k, then the y-step |
| Interpolation.Interpolation3DAtNode | application/components/fpmath/src/fpmath.c:553-601 | on ascending axes the interpolation returns the stored z-value at every grid point |
| Interpolation.Interpolation3DExample | application/components/fpmath/src/fpmath.c:553-601 | x = [0,10], y = [0,10], z = [0,10,20,30]: (5, 5) → 15 |
| Cordic.CordicAngleTabQ15 | application/components/fpmath/src/fpmath.c:54-71 | every angle step is in [0, 8192] |
| Cordic.PreRotate | application/components/fpmath/src/fpmath.c:350-373 | the working vector has a non-negative real part, the offset is −16384, 0 or 16384, and it is 0 exactly when Re ≥ 0 |
| Cordic.PreRotateInverse | application/components/fpmath/src/fpmath.c:350-373 | turning the working vector by the offset gives back the input |
| Cordic.PreRotateRightHalf | application/components/fpmath/src/fpmath.c:368-373 | an input with Re ≥ 0 is used unchanged with offset 0 |
| Cordic.TabSumMonotone | application/components/fpmath/src/fpmath.c:54-71 | the partial sums of the angle table are non-negative and grow |
| Cordic.AngleTableUse | application/components/fpmath/src/fpmath.c:35 | 14 iterations read only entries 0..13 of the 16, whose sum is 18181 |
| Cordic.Micro | application/components/fpmath/src/fpmath.c:377-394 | a micro-rotation never shrinks Re; it moves the angle by exactly the step, down when Im < 0 |
| Cordic.Rotations | application/components/fpmath/src/fpmath.c:375-397 | the real part never shrinks over the iterations |
| Cordic.RotationsAngle | application/components/fpmath/src/fpmath.c:384-393 | after k iterations the angle has moved by at most the sum of the first k steps |
| Cordic.Final | application/components/fpmath/src/fpmath.c:374-397 | after the loop, \|angle\| ≤ 18181 and Re ≥ the working Re ≥ 0 |
| Cordic.LoopStep | application/components/fpmath/src/fpmath.c:377-396 | one pass of the C loop computes the next micro-rotation, and the accumulator stays within ±18181 |
| Cordic.Magnitude | application/components/fpmath/src/fpmath.c:398 | the magnitude is non-negative |
| Cordic.MicroStep | application/components/fpmath/src/fpmath.c:377-396 | the loop body advances the vector and the angle field by one micro-rotation |
| Cordic.FirstRotations | application/components/fpmath/src/fpmath.c:374-397 | after n passes of the loop, the vector and the angle field hold the first n micro-rotations of the starting vector |
| Cordic.MicroRotations | application/components/fpmath/src/fpmath.c:374-397 | the loop leaves the 14-fold micro-rotation of the working vector in the vector and the angle field |
| Cordic.Cart2Pol | application/components/fpmath/src/fpmath.c:344-400 | `FPM_vCart2Pol` writes Magnitude and Angle: (39796·Re) >> 16 and the accumulated angle plus the offset, wrapped to int16 |
| Cordic.OriginStaysPut | application/components/fpmath/src/fpmath.c:375-397 | from the origin the vector stays put and every step adds its angle |
| Cordic.Cart2PolOrigin | application/components/fpmath/src/fpmath.c:344-400 | input (0, 0) is defined and gives magnitude 0 and angle 18181 |
| Cordic.QuadrantReduction | application/components/fpmath/src/fpmath.c:350-399 | magnitude and angle are those of the working vector, with the offset added to the angle |
| Cordic.RightHalfAngle | application/components/fpmath/src/fpmath.c:368-399 | for Re ≥ 0 the angle is the accumulated angle, within ±18181 |
| Clarke.ClarkeIm | application/components/fpmath/src/fpmath.c:412-415 | the imaginary part has the sign of a + 2b, or is 0 |
| Clarke.ClarkeTrans | application/components/fpmath/src/fpmath.c:405-418 | `FPM_vClarkeTrans` writes Re = a and Im = trunc((a + 2b)·18918 / 32768) |
| Clarke.IgnoresPhaseC | application/components/fpmath/src/fpmath.c:405-418 | the result does not depend on phase c |
| Clarke.Balanced | application/components/fpmath/src/fpmath.c:412-415 | for a + b + c = 0 the imaginary part is (b − c)/√3 in the same arithmetic |
| Clarke.OddSymmetry | application/components/fpmath/src/fpmath.c:415 | negating a and b negates the imaginary part |
| Clarke.ImBound | application/components/fpmath/src/fpmath.c:415 | \|Im\|·32768 ≤ \|a + 2b\|·18918, so \|Im\| < \|a + 2b\| unless that is 0 |
| Clarke.ClarkeExamples | application/components/fpmath/src/fpmath.c:412-417 | Q12 phases (0, 1, −1) give Im = 4729 and (1, −½, −½) give Im = 0 |
| Observers.Callbacks | application/components/observer/src/Observer.c:72-76 | a walk calls at most one callback per observer |
| Observers.CallbacksRemove | application/components/observer/src/Observer.c:57-65 | unlinking an observer removes exactly its callback from a notification |
| Observers.CallbacksAppend | application/components/observer/src/Observer.c:68-78 | the notification of a concatenated chain is the concatenation |
| Observers.CreateSubject | application/components/observer/src/Observer.c:26-29 | pHead is null, cnt is 0, and the list is empty |
| Observers.CreateObserver | application/components/observer/src/Observer.c:31-35 | both links are null and the callback is stored |
| Observers.Attach | application/components/observer/src/Observer.c:37-48 | the observer becomes the head; its successor is the old head; the old head's p_prev points back to it; cnt is unchanged; the chain gains it in front; accurate back links stay accurate; no callback is called |
| Observers.Detach | application/components/observer/src/Observer.c:50-66 | as written, for any observer, listed or not: both links null → nothing changes; no back link → pHead moves to the successor; otherwise the predecessor is bridged; links cleared; cnt and callbacks unchanged; an unlisted observer without links leaves the chain as it is; with accurate back links in a longer chain the observer leaves the chain; a sole observer stays in it |
| Observers.DetachFixed | application/components/observer/src/Observer.c:50-66 | corrected: the observer leaves the chain, back links stay accurate, callbacks unchanged, and an unattached observer changes nothing |
| Observers.UnlinkedChain | application/components/observer/src/Observer.c:57-65 | bridging over element i leaves a well-linked chain without it |
| Observers.UnlinkedBackLinks | application/components/observer/src/Observer.c:57-65 | repairing the successor's back link keeps the back links accurate |
| Observers.Notify | application/components/observer/src/Observer.c:68-78 | `OBS_Notify` calls exactly the non-null callbacks of the chain, once each, in list order, and changes nothing |
| Observers.AttachThree | application/components/observer/test/ObserverTest.cpp:121-132 | attaching 1, 2, 3 gives the chain 3, 2, 1 with accurate back links |
| Observers.AttachOneNotifyTwice | application/components/observer/test/ObserverTest.cpp:110-119 | each notification calls observer 1 once |
| Observers.AttachThreeNotify | application/components/observer/test/ObserverTest.cpp:134-149 | a notification calls 3, 2, 1 once each |
| Observers.DetachHeadNotify | application/components/observer/test/ObserverTest.cpp:151-171 | after detaching the head 3, the calls are 2, 1 |
| Observers.DetachMiddleNotify | application/components/observer/test/ObserverTest.cpp:173-193 | after detaching 2, the calls are 3, 1 |
| Observers.DetachTailNotify | application/components/observer/test/ObserverTest.cpp:195-215 | after detaching 1, the calls are 3, 2 |
| Observers.DetachTwoNotify | application/components/observer/test/ObserverTest.cpp:217-238 | after detaching 1 and then 3, the only call is 2 |
| Observers.DetachTwiceNotify | application/components/observer/test/ObserverTest.cpp:240-261 | detaching 1 twice is detaching it once: the calls are 3, 2 |
| Observers.DetachSoleAsWritten | application/components/observer/src/Observer.c:54-56 | as written, a sole attached observer survives its detach and is still called |
| Observers.DetachSoleFixed | application/components/observer/src/Observer.c:54-56 | corrected, detaching the sole observer empties the list |
| Observers.StaleBackLinkAsWritten | application/components/observer/src/Observer.c:57-62 | as written, after the head is detached its successor keeps a stale back link, and detaching that successor leaves it in the list |
| Observers.StaleBackLinkFixed | application/components/observer/src/Observer.c:57-62 | corrected, the same calls empty the list |
| Observers.NoChainOnCycle | application/components/observer/src/Observer.c:68-78 | when the head and its successor point at each other, no forward chain ends in null, so the walk of `OBS_Notify` never stops |
| Observers.CycleAsWritten | application/components/observer/src/Observer.c:57-65 | as written, attach 1, 2, 3; detach 2; attach 2; detach 1; attach 1; detach 3 leaves pHead = 1, 1.p_next = 2, 2.p_next = 1, and no chain |
| Observers.CycleFixed | application/components/observer/src/Observer.c:57-65 | corrected, the same calls leave observers 1 and 2 listed, and a notification calls 1, 2 |
| ObserverDemo.Tick | application/components/observer/examples/obs_example.c:33-46 | a call that reaches 1000000 resets the counter to 0 and toggles the state; any other call keeps the state and leaves the counter below 1000000 |
| ObserverDemo.TickInRange | application/components/observer/examples/obs_example.c:34-37 | a counter in [0, 999999] stays there; the state toggles exactly on the call from 999999 |
| ObserverDemo.RunFromFresh | application/components/observer/examples/obs_example.c:27-45 | after m calls from creation: counter = m mod 10^6, and the state is ON iff m div 10^6 is even |
| ObserverDemo.NotifyCountFromFresh | application/components/observer/examples/obs_example.c:33-46 | m calls from creation notify the subject m div 10^6 times |
| ObserverDemo.Periodic | application/components/observer/examples/obs_example.c:33-46 | 2·10^6 calls bring a fresh object back to the same state and counter |
| ObserverDemo.CreateObserverDemo | application/components/observer/examples/obs_example.c:27-31 | state ON, counter 0, and a subject with pHead null, cnt 0 and an empty chain |
| ObserverDemo.HandleObserverDemo | application/components/observer/examples/obs_example.c:33-48 | the new state and counter are one Tick of the old; the call returns 0; it notifies the subject exactly when the counter restarts |
| ObserverDemo.GetDemoState | application/components/observer/examples/obs_example.c:50-52 | returns the state and changes nothing |
| ObserverDemo.AttachObserver | application/components/observer/examples/obs_example.c:54-56 | `OBS_Attach` on the embedded subject: the observer becomes the head with no back link, the old head links back to it, cnt unchanged, the chain gains the observer in front and its callback first; state and counter unchanged |
| ObserverDemo.DetachObserver | application/components/observer/examples/obs_example.c:58-60 | `OBS_Detach` as written on the embedded subject, for any observer: the same pointer writes, cnt and callbacks unchanged, a sole observer stays, a longer chain loses the observer where back links are accurate; state and counter unchanged |
| ObserverDemo.DetachObserverFixed | application/components/observer/examples/obs_example.c:58-60 | the same call with the corrected detach: the observer leaves the chain and back links stay accurate; state and counter unchanged |

## Left out

- Signed overflow is undefined behaviour in C. The model does not wrap
  signed values. Each operation instead requires that its intermediates
  fit in 32 bits:
  - the products of `FPM_FpMul*` and `FPM_FpDiv*`;
  - the interpolation numerators;
  - the CORDIC vector components and gain product;
  - the Clarke sum;
  - `FpAbs` and the pre-rotation negations, which require an operand other than INT32_MIN.
- FixedPoint.FpMulQn: one function with the format as a parameter stands
  for the thirty macros `FPM_FpMulQ1` to `FPM_FpMulQ30`. `FixedPoint.FpDivQn` does the same for `FPM_FpDivQ1` to `FPM_FpDivQ30`.
- The header macros are modelled as functions of their argument values.
  The C macros do not parenthesise their parameters, so a compound
  argument regroups: `FPM_FpAbs(a-b)` negates only `a`, and
  `FPM_tSin(p+q)` casts only `p`. The model assumes simple arguments, as
  at the call sites in the kernel.
- Floating-point literals:
  - The `Q<n>()` and `FP()` macros evaluate floating-point literals. They
    are replaced by their precomputed integer values, such as the table
    entries, 39796 and 18918.
  - `FP()` for formats 29 and 30 names `Q29`/`Q30`, which are never
    defined, so it is not modelled.
- Numerical accuracy against the real sine, atan2, hypot and √3 is not
  stated; only the exact integer behaviour is.
- Observers.Callbacks: a callback is an opaque id, and a notification
  returns the ids it calls. Callback bodies are foreign code, so
  re-entrant attach or detach from inside a callback is not modelled.
- Observers.Attach requires that the observer is not already in the list.
  Attaching it a second time makes the chain cyclic. As written, a sole
  observer stays listed after its detach (first finding below), so
  attaching it again after that detach is such a second attach.
- Observers.Detach: the chain-level postconditions of the as-written
  detach are stated only where the back links are accurate. The same
  holds for ObserverDemo.DetachObserver, which calls it. Elsewhere only
  the pointer-level effects are stated.
- Interpolation.Interpolate2D requires at least two table entries. With
  fewer, the source reads outside the table.
- Interpolation.Interpolate3D requires at least two values per axis, for
  the same reason.
- Interpolation.Interpolate3D: the pointer walk over the grid is modelled
  as indices into the three arrays. Pointer aliasing between them is not
  modelled; it cannot matter, because the function only reads.
- ObserverDemo.DemoObj: the subject stored inside the C struct is a
  separate object, fixed when the demo object is constructed.
- The types `TCplxNum` and `TPoint` are not modelled separately. `TPoint`
  appears as `Interpolation.Point`; `TCplxNum` is not used by the kernel.
- `dio.h` (GPIO register access) and `main.cpp` (board bring-up and the
  super-loop) are hardware I/O with nothing to prove, so they are not part
  of this model.

## Findings

| source | as written | input that shows it | evidently intended | confidence | as-written member | corrected member |
|---|---|---|---|---|---|---|
| application/components/observer/src/Observer.c:54-56 | an observer with both links null is taken to be detached, which is also the state of the sole attached observer | attach observer 1 to an empty subject, detach it, notify: callback 1 is still called | the sole observer is recognised as the head (`pHead == pObserver`) and removed | high; not executed | Observers.DetachSoleAsWritten | Observers.DetachSoleFixed |
| application/components/observer/src/Observer.c:57-62 | the successor's `p_prev` is never repaired when an observer is unlinked | attach 1, attach 2, detach 2 (now 1.p_prev is still 2), detach 1: the else branch writes 2.p_next and pHead stays 1; notify calls 1 | the successor's `p_prev` is set to the detached observer's `p_prev` | high; not executed | Observers.StaleBackLinkAsWritten | Observers.StaleBackLinkFixed |
| application/components/observer/src/Observer.c:57-65 | a detach writes through the links of the observer it is given even when that observer is no longer listed; combined with the stale back links this can close the list into a cycle | attach 1, 2, 3; detach 2; attach 2; detach 1; attach 1; detach 3: pHead = 1, 1.p_next = 2, 2.p_next = 1, and a notification never returns | the corrected detach, under which the same calls leave 1, 2 listed and a notification calls 1, 2 | high; not executed | Observers.CycleAsWritten | Observers.CycleFixed |
