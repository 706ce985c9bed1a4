/** Unwrapping of the 24-bit abs-send-time header extension.

The extension carries the sender's clock in ticks of 2^-18 seconds, cut to 24 bits. The receiver
recovers the signed distance between two packets with a left and an arithmetic right shift on
32-bit integers. Machine integers are written out as `int` with explicit wrap-around.
*/
module SendTime {

  import opened Common

  const HALF_WORD := 0x8000_0000
  const WIRE := 0x100_0000
  const HALF_WIRE := 0x80_0000
  const FRACTION := 0x4_0000
  const MICROS := 1_000_000

  type Word = w: int | 0 <= w < UINT32
  type WireTime = w: int | 0 <= w < WIRE

  // The value a sender with true clock `ticks` writes into the header.
  function OnWire(ticks: int): (w: WireTime) {
    ticks % WIRE
  }

  // uint32_t subtraction.
  function Minus(a: Word, b: Word): (r: Word) {
    (a - b) % UINT32
  }

  // uint32_t << 8.
  function ShiftLeft8(a: Word): (r: Word) {
    a * 256 % UINT32
  }

  // static_cast<int32_t>.
  function Signed(a: Word): (r: int) {
    if a < HALF_WORD then a else a - UINT32
  }

  // int32_t >> 8 (arithmetic, hence rounding towards minus infinity).
  function ShiftRight8(a: int): (r: int) {
    a / 256
  }

  // C++ integer division truncates towards zero.
  function TruncatedDiv(a: int, b: int): (r: int)
    requires b > 0
  {
    if a >= 0 then a / b else -(-a / b)
  }

  // The tick delta GetAbsoluteSendTimeDelta computes.
  function TickDelta(now: WireTime, previous: WireTime): (d: int) {
    ShiftRight8(Signed(ShiftLeft8(Minus(now, previous))))
  }

  // The microsecond delta GetAbsoluteSendTimeDelta returns.
  function MicrosDelta(now: WireTime, previous: WireTime): (d: int) {
    TruncatedDiv(TickDelta(now, previous) * MICROS, FRACTION)
  }

  predicate InHalfRange(step: int) {
    -HALF_WIRE <= step < HALF_WIRE
  }

  // The shifts compute the representative of the difference modulo 2^24 nearest to zero.
  lemma TickDeltaIsCentredResidue(now: WireTime, previous: WireTime)
    ensures InHalfRange(TickDelta(now, previous))
    ensures (TickDelta(now, previous) - (now - previous)) % WIRE == 0
  {
    var diff: int := now - previous;
    var m: int := Minus(now, previous);
    var hi := if diff >= 0 then 0 else 255;
    var low := if diff >= 0 then diff else diff + WIRE;
    assert m == hi * WIRE + low;
    assert m * 256 == low * 256 + hi * UINT32;
    assert ShiftLeft8(m) == low * 256;
    if low < HALF_WIRE {
      assert TickDelta(now, previous) == low;
    } else {
      assert Signed(low * 256) == (low - WIRE) * 256;
      assert TickDelta(now, previous) == low - WIRE;
    }
  }

  // Two half-range numbers that agree modulo 2^24 are equal.
  lemma CentredResidueUnique(a: int, b: int)
    requires InHalfRange(a) && InHalfRange(b)
    requires (a - b) % WIRE == 0
    ensures a == b
  {
  }

  lemma MultiplesAdd(a: int, b: int)
    requires a % WIRE == 0 && b % WIRE == 0
    ensures (a + b) % WIRE == 0
  {
  }

  // Cutting both clocks to the wire changes their distance by a multiple of 2^24.
  lemma WireKeepsResidue(before: int, after: int)
    ensures (OnWire(after) - OnWire(before) - (after - before)) % WIRE == 0
  {
    var kb, ka := before / WIRE, after / WIRE;
    assert OnWire(after) - OnWire(before) - (after - before) == (kb - ka) * WIRE;
  }

  // The receiver recovers the true step across any wrap-around exactly when the step is less
  // than half the wire range.
  lemma DeltaRecoversStep(before: int, after: int)
    ensures TickDelta(OnWire(after), OnWire(before)) == after - before <==> InHalfRange(after - before)
  {
    var now: int, previous: int, step := OnWire(after), OnWire(before), after - before;
    TickDeltaIsCentredResidue(now, previous);
    if InHalfRange(step) {
      var d := TickDelta(now, previous);
      WireKeepsResidue(before, after);
      MultiplesAdd(d - (now - previous), now - previous - step);
      CentredResidueUnique(d, step);
    }
  }

  // A run of packets, each given by the sender's true clock.
  ghost predicate SmallSteps(ticks: seq<int>) {
    forall i :: 0 < i < |ticks| ==> InHalfRange(ticks[i] - ticks[i - 1])
  }

  function SumTicks(ticks: seq<int>): (s: int)
    requires |ticks| > 0
  {
    if |ticks| == 1 then 0
    else
      var n := |ticks| - 1;
      SumTicks(ticks[..n]) + TickDelta(OnWire(ticks[n]), OnWire(ticks[n - 1]))
  }

  function SumMicros(ticks: seq<int>): (s: int)
    requires |ticks| > 0
  {
    if |ticks| == 1 then 0
    else
      var n := |ticks| - 1;
      SumMicros(ticks[..n]) + MicrosDelta(OnWire(ticks[n]), OnWire(ticks[n - 1]))
  }

  // The deltas of a whole run add up to the true elapsed time, however often the wire clock wraps.
  lemma {:induction false} RunRecoversElapsed(ticks: seq<int>)
    requires |ticks| > 0 && SmallSteps(ticks)
    ensures SumTicks(ticks) == ticks[|ticks| - 1] - ticks[0]
  {
    if |ticks| > 1 {
      var n := |ticks| - 1;
      RunRecoversElapsed(ticks[..n]);
      DeltaRecoversStep(ticks[n - 1], ticks[n]);
    }
  }

  function Abs(x: int): (r: int) {
    if x < 0 then -x else x
  }

  // Each conversion to microseconds truncates, so the accumulated error stays below one
  // microsecond per packet after the first (scaled by 2^18 to stay in the integers).
  lemma {:induction false} MicrosErrorBounded(ticks: seq<int>)
    requires |ticks| > 0 && SmallSteps(ticks)
    ensures Abs(SumMicros(ticks) * FRACTION - (ticks[|ticks| - 1] - ticks[0]) * MICROS)
         <= (|ticks| - 1) * (FRACTION - 1)
  {
    if |ticks| > 1 {
      var n := |ticks| - 1;
      MicrosErrorBounded(ticks[..n]);
      DeltaRecoversStep(ticks[n - 1], ticks[n]);
      TruncationError((ticks[n] - ticks[n - 1]) * MICROS);
    }
  }

  lemma TruncationError(a: int)
    ensures Abs(TruncatedDiv(a, FRACTION) * FRACTION - a) <= FRACTION - 1
  {
  }
}
