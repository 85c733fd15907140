/**
 Automatic gain calibration (sdr_hardware_service.py): the list of gains to sweep, the sweep, and the
 choice among the measurements. Levels are reals; only the rounding to whole steps and tenths matters.
 */
module GainSweep {
  import opened Wrappers

  const MAX_CANDIDATES: nat := 80
  const THINNING: nat := 40

  /** Python's round(): to the nearest integer, halves to the even one. */
  function RoundHalfEven(x: real): int {
    var below := x.Floor;
    var fraction := x - below as real;
    if fraction < 0.5 || (fraction == 0.5 && below % 2 == 0) then below else below + 1
  }

  function Tenths(x: real): real { RoundHalfEven(x * 10.0) as real / 10.0 }

  /** xs[::stride] */
  function EveryNth<T>(xs: seq<T>, stride: nat): seq<T>
    requires stride > 0
  {
    seq((|xs| + stride - 1) / stride, i requires 0 <= i < (|xs| + stride - 1) / stride =>
      assert i * stride < |xs| by { InRange(|xs|, stride, i); }
      xs[i * stride])
  }

  lemma Cancel(a: int, b: int, k: int)
    requires k > 0 && a * k <= b * k
    ensures a <= b
  {
  }

  lemma Times(a: int, b: int, k: int)
    requires a <= b && k >= 0
    ensures a * k <= b * k
  {
  }

  lemma DivMul(a: int, k: int)
    requires k > 0
    ensures a / k * k <= a < (a / k + 1) * k
  {
    assert a == k * (a / k) + a % k;
  }

  lemma InRange(n: nat, stride: nat, i: nat)
    requires stride > 0 && i < (n + stride - 1) / stride
    ensures i * stride < n
  {
    var length := (n + stride - 1) / stride;
    DivMul(n + stride - 1, stride);
    Times(i + 1, length, stride);
    assert (i + 1) * stride == i * stride + stride;
  }

  function Stride(n: int): nat { if n > MAX_CANDIDATES then Max(1, n / THINNING) else 1 }

  function Steps(gMin: real, gMax: real): int { RoundHalfEven(gMax - gMin) + 1 }

  function CandidateGains(gMin: real, gMax: real): seq<real> {
    if gMax > gMin then
      var n := Steps(gMin, gMax);
      var all := seq(n, i requires 0 <= i < n => Tenths(gMin + i as real));
      if n > MAX_CANDIDATES then EveryNth(all, Max(1, n / THINNING)) else all
    else [gMin]
  }

  lemma RoundShift(x: real, k: int)
    requires k % 2 == 0
    ensures RoundHalfEven(x + k as real) == RoundHalfEven(x) + k
  {
    assert (x + k as real).Floor == x.Floor + k;
  }

  lemma TenTimes(x: real, i: int)
    ensures (10 * i) % 2 == 0
    ensures (x + i as real) * 10.0 == x * 10.0 + (10 * i) as real
  {
    assert 10 * i == 2 * (5 * i);
  }

  lemma Tenth(n: int, i: int)
    ensures (n + 10 * i) as real / 10.0 == n as real / 10.0 + i as real
  {
  }

  /** The nearest integer, and of two equally near ones the even one. */
  lemma RoundBounds(x: real)
    ensures x - 0.5 <= RoundHalfEven(x) as real <= x + 0.5
    ensures RoundHalfEven(x) as real == x - 0.5 || RoundHalfEven(x) as real == x + 0.5 ==> RoundHalfEven(x) % 2 == 0
  {
  }

  lemma TenthsShift(x: real, i: int)
    ensures Tenths(x + i as real) == Tenths(x) + i as real
  {
    hide RoundHalfEven;
    TenTimes(x, i);
    RoundShift(x * 10.0, 10 * i);
    Tenth(RoundHalfEven(x * 10.0), i);
  }

  /** The thinned list keeps between 40 and 60 of the candidates. */
  lemma ThinnedLength(n: nat)
    requires n > 80
    ensures 40 <= (n + n / THINNING - 1) / (n / THINNING) <= 60
  {
    var k := n / THINNING;
    var length := (n + k - 1) / k;
    assert k >= 2 && THINNING * k <= n <= THINNING * k + 39;
    DivMul(n + k - 1, k);
    Cancel(length, 60, k);
    Cancel(THINNING + 1, length + 1, k);
  }

  /**
   The sweep list is never empty, climbs in equal whole-decibel steps from the minimum (to the tenth),
   and has at most 80 entries, at most 60 once thinned.
   */
  lemma SweepList(gMin: real, gMax: real)
    ensures var gains := CandidateGains(gMin, gMax);
            && 0 < |gains| <= 80
            && (gMax > gMin && gMax - gMin < 79.0 ==> gMax - gMin + 0.5 <= |gains| as real <= gMax - gMin + 1.5)
            && gains[0] == (if gMax > gMin then Tenths(gMin) else gMin)
            && (forall i | 0 <= i < |gains| :: gains[i] == gains[0] + (i * Stride(Steps(gMin, gMax))) as real)
            && (forall i, j | 0 <= i < j < |gains| :: gains[i] < gains[j])
            && (gMax > gMin && Steps(gMin, gMax) > 80 ==> 40 <= |gains| <= 60)
  {
    var gains := CandidateGains(gMin, gMax);
    if gMax > gMin {
      var n := Steps(gMin, gMax);
      RoundBounds(gMax - gMin);
      if n > MAX_CANDIDATES {
        ThinnedLength(n);
      }
      forall i | 0 <= i < |gains| ensures gains[i] == Tenths(gMin) + (i * Stride(n)) as real {
        CandidateAt(gMin, gMax, i);
      }
      assert 0 * Stride(n) == 0;
    }
    forall i, j | 0 <= i < j < |gains| ensures gains[i] < gains[j] {
      Climbs(i, j, Stride(Steps(gMin, gMax)));
    }
  }

  lemma Climbs(i: nat, j: nat, stride: nat)
    requires i < j && stride > 0
    ensures i * stride < j * stride
  {
    Times(i + 1, j, stride);
    assert (i + 1) * stride == i * stride + stride;
  }

  /** Each candidate sits a whole number of decibels above the rounded minimum, within the step count. */
  lemma CandidateAt(gMin: real, gMax: real, i: nat)
    requires gMax > gMin && i < |CandidateGains(gMin, gMax)|
    ensures var n := Steps(gMin, gMax);
            && 0 <= i * Stride(n) < n
            && CandidateGains(gMin, gMax)[i] == Tenths(gMin) + (i * Stride(n)) as real
  {
    hide RoundHalfEven, Tenths;
    var n := Steps(gMin, gMax);
    RoundBounds(gMax - gMin);
    if n > MAX_CANDIDATES {
      InRange(n, Stride(n), i);
    }
    assert CandidateGains(gMin, gMax)[i] == Tenths(gMin + (i * Stride(n)) as real);
    TenthsShift(gMin, i * Stride(n));
  }

  /** How far above the first candidate the last one lies. */
  function Span(n: int): int
    requires n > 0
  {
    (n - 1) / Stride(n) * Stride(n)
  }

  lemma LastIndex(n: nat, stride: nat)
    requires n > 0 && stride > 0
    ensures (n + stride - 1) / stride - 1 == (n - 1) / stride
  {
    var q := (n - 1) / stride;
    DivMul(n - 1, stride);
    Distribute(q, stride);
    Distribute(q + 1, stride);
    UniqueQuotient(n + stride - 1, stride, q + 1);
  }

  lemma Distribute(a: int, k: int)
    ensures (a + 1) * k == a * k + k
  {
  }

  lemma UniqueQuotient(a: int, k: int, q: int)
    requires k > 0 && q * k <= a < (q + 1) * k
    ensures a / k == q
  {
    var d := a / k;
    DivMul(a, k);
    StrictlyBelow(d, q + 1, k);
    StrictlyBelow(q, d + 1, k);
  }

  lemma StrictlyBelow(a: int, b: int, k: int)
    requires k > 0 && a * k < b * k
    ensures a < b
  {
    if b <= a {
      Times(b, a, k);
    }
  }

  lemma LastCandidate(gMin: real, gMax: real)
    requires gMax > gMin
    ensures var gains, n := CandidateGains(gMin, gMax), Steps(gMin, gMax);
            && n > 0 && gains != []
            && gains[|gains| - 1] == Tenths(gMin) + Span(n) as real
            && (n <= MAX_CANDIDATES ==> Span(n) == n - 1)
  {
    hide RoundHalfEven, Tenths;
    RoundBounds(gMax - gMin);
    SweepList(gMin, gMax);
    var gains, n := CandidateGains(gMin, gMax), Steps(gMin, gMax);
    CandidateAt(gMin, gMax, |gains| - 1);
    if n > MAX_CANDIDATES {
      LastIndex(n, Stride(n));
    }
  }

  /**
   Rounding the number of steps and the tenths lets the sweep leave the device's range: above the
   maximum exactly if the rounded minimum plus the span of the list does, below the minimum exactly if
   the minimum is rounded down, and outside a single-gain range never.
   */
  lemma OutOfRangeIff(gMin: real, gMax: real)
    ensures gMax > gMin ==>
              && ((exists g <- CandidateGains(gMin, gMax) :: g > gMax)
                  <==> Tenths(gMin) + Span(Steps(gMin, gMax)) as real > gMax)
              && ((exists g <- CandidateGains(gMin, gMax) :: g < gMin) <==> Tenths(gMin) < gMin)
    ensures gMax <= gMin ==> CandidateGains(gMin, gMax) == [gMin]
  {
    if gMax > gMin {
      hide RoundHalfEven, Tenths, CandidateGains;
      LastCandidate(gMin, gMax);
      SweepList(gMin, gMax);
      var gains := CandidateGains(gMin, gMax);
      assert gains[0] in gains && gains[|gains| - 1] in gains;
      assert forall g <- gains :: gains[0] <= g <= gains[|gains| - 1];
    }
  }

  /** A list that is not thinned passes the maximum exactly if rounding the range up outweighs rounding the minimum. */
  lemma UnthinnedOutOfRangeIff(gMin: real, gMax: real)
    requires gMax > gMin && Steps(gMin, gMax) <= MAX_CANDIDATES
    ensures (exists g <- CandidateGains(gMin, gMax) :: g > gMax)
       <==> Tenths(gMin) + RoundHalfEven(gMax - gMin) as real > gMax
  {
    hide RoundHalfEven, Tenths, CandidateGains;
    LastCandidate(gMin, gMax);
    OutOfRangeIff(gMin, gMax);
  }

  /** It never leaves the range by more than 0.55 dB above or 0.05 dB below, and it does leave it. */
  lemma SweepOvershoot(gMin: real, gMax: real)
    ensures forall g <- CandidateGains(gMin, gMax) :: gMax > gMin ==> gMin - 0.05 <= g <= gMax + 0.55
    ensures CandidateGains(0.0, 0.6) == [0.0, 1.0]
  {
    assert RoundHalfEven(0.6) == 1;
    assert Tenths(0.0) == 0.0 && Tenths(1.0) == 1.0;
    assert CandidateGains(0.0, 0.6)[1] == Tenths(0.0 + 1.0);
    if gMax > gMin {
      var gains, n := CandidateGains(gMin, gMax), Steps(gMin, gMax);
      RoundBounds(gMax - gMin);
      RoundBounds(gMin * 10.0);
      forall i | 0 <= i < |gains| ensures gMin - 0.05 <= gains[i] <= gMax + 0.55 {
        CandidateAt(gMin, gMax, i);
      }
    }
  }

  // ---------------------------------------------------------------------------
  // Choosing
  // ---------------------------------------------------------------------------

  datatype Measurement =
    | Levels(gain: real, rms: real, clipping: real)
    | Unmeasured(gain: real, error: string)

  datatype Decision = HeadroomTarget | HighestNonClipping | FallbackLowest

  datatype Choice = Choice(measurement: Measurement, decision: Decision)

  predicate Usable(m: Measurement, threshold: real) { m.Levels? && m.clipping <= threshold }

  function EffectiveTarget(target: real, lna: real): real {
    target - (if lna > 0.0 then lna else 0.0) * 0.5
  }

  /** max(ms, key=gain): the first of the highest. */
  function Highest(ms: seq<Measurement>): (m: Measurement)
    requires ms != []
    ensures m in ms && forall x <- ms :: x.gain <= m.gain
  {
    if |ms| == 1 then ms[0] else
      assert forall x :: x in ms <==> x == ms[0] || x in ms[1..];
      var rest := Highest(ms[1..]);
      if rest.gain <= ms[0].gain then ms[0] else rest
  }

  function Lowest(ms: seq<Measurement>): (m: Measurement)
    requires ms != []
    ensures m in ms && forall x <- ms :: m.gain <= x.gain
  {
    if |ms| == 1 then ms[0] else
      assert forall x :: x in ms <==> x == ms[0] || x in ms[1..];
      var rest := Lowest(ms[1..]);
      if ms[0].gain <= rest.gain then ms[0] else rest
  }

  function Choose(ms: seq<Measurement>, target: real, lna: real, threshold: real): Option<Choice> {
    var usable := Filter((m: Measurement) => Usable(m, threshold), ms);
    if usable != [] then
      var below := Filter((m: Measurement) => m.Levels? && m.rms <= EffectiveTarget(target, lna), usable);
      if below != [] then Some(Choice(Highest(below), HeadroomTarget))
      else Some(Choice(Highest(usable), HighestNonClipping))
    else
      var ok := Filter((m: Measurement) => m.Levels?, ms);
      if ok == [] then None else Some(Choice(Lowest(ok), FallbackLowest))
  }

  /** The choice, layer by layer: what is chosen and exactly when each layer applies. */
  lemma ChoiceIsLayeredArgmax(ms: seq<Measurement>, target: real, lna: real, threshold: real)
    ensures var usable := (m: Measurement) => m.Levels? && m.clipping <= threshold;
            var fits := (m: Measurement) => usable(m) && if lna > 0.0 then m.rms <= target - lna / 2.0 else m.rms <= target;
            match Choose(ms, target, lna, threshold)
            case None => forall m <- ms :: !m.Levels?
            case Some(Choice(m, HeadroomTarget)) =>
              m in ms && fits(m) && forall x <- ms | fits(x) :: x.gain <= m.gain
            case Some(Choice(m, HighestNonClipping)) =>
              && m in ms && usable(m)
              && (forall x <- ms :: !fits(x))
              && (forall x <- ms | usable(x) :: x.gain <= m.gain)
            case Some(Choice(m, FallbackLowest)) =>
              && m in ms && m.Levels?
              && (forall x <- ms :: !usable(x))
              && (forall x <- ms | x.Levels? :: m.gain <= x.gain)
  {
    var usable := Filter((m: Measurement) => Usable(m, threshold), ms);
    var below := Filter((m: Measurement) => m.Levels? && m.rms <= EffectiveTarget(target, lna), usable);
    var ok := Filter((m: Measurement) => m.Levels?, ms);
    assert forall m <- ms :: Usable(m, threshold) ==> m in usable;
    assert forall m <- usable :: m.rms <= EffectiveTarget(target, lna) ==> m in below;
    assert forall m <- ms :: m.Levels? ==> m in ok;
  }

  /**
   More LNA gain in front never raises the chosen gain as long as the decision stays the headroom
   target. It does raise it in exactly one case: the tightened target is met by no measurement, so the
   choice jumps to a higher non-clipping gain.
   */
  lemma MoreLnaGain(ms: seq<Measurement>, target: real, threshold: real, lna: real, lna': real)
    requires lna <= lna'
    requires Choose(ms, target, lna, threshold).Some?
    ensures Choose(ms, target, lna', threshold).Some?
    ensures var c, c' := Choose(ms, target, lna, threshold).value, Choose(ms, target, lna', threshold).value;
            && (c'.decision.HeadroomTarget? ==> c.decision.HeadroomTarget? && c'.measurement.gain <= c.measurement.gain)
            && (c'.measurement.gain > c.measurement.gain <==>
                && c.decision.HeadroomTarget? && c'.decision.HighestNonClipping?
                && exists m <- ms :: Usable(m, threshold) && m.gain > c.measurement.gain)
  {
    ChoiceIsLayeredArgmax(ms, target, lna, threshold);
    ChoiceIsLayeredArgmax(ms, target, lna', threshold);
  }

  // ---------------------------------------------------------------------------
  // The sweep
  // ---------------------------------------------------------------------------

  /** What the device does at one gain setting. */
  datatype Reading =
    | SetRejected(error: string)
    | ReadRaises(error: string)
    | NoReading
    | Reading(rms: real, clipping: real)

  function Measured(gain: real, r: Reading): Measurement {
    match r
    case SetRejected(error) => Unmeasured(gain, error)
    case ReadRaises(error) => Unmeasured(gain, error)
    case NoReading => Unmeasured(gain, "no samples available")
    case Reading(rms, clipping) => Levels(gain, rms, clipping)
  }

  /** One measurement per candidate, in order, whatever fails on the way. */
  function Measurements(gains: seq<real>, readings: seq<Reading>): (ms: seq<Measurement>)
    requires |readings| == |gains|
  {
    seq(|gains|, i requires 0 <= i < |gains| => Measured(gains[i], readings[i]))
  }

  /** The gain the sweep leaves behind: the last one the device accepted. */
  function LastAccepted(before: real, gains: seq<real>, readings: seq<Reading>): real
    requires |readings| == |gains|
  {
    if gains == [] then before
    else if !readings[|gains| - 1].SetRejected? then gains[|gains| - 1]
    else LastAccepted(before, gains[..|gains| - 1], readings[..|gains| - 1])
  }

  /** The last gain that was not refused, or the gain before the sweep if all were. */
  lemma {:induction false} LastAcceptedAt(before: real, gains: seq<real>, readings: seq<Reading>, i: nat)
    requires |readings| == |gains| && i <= |gains| && forall j | i <= j < |gains| :: readings[j].SetRejected?
    requires i > 0 ==> !readings[i - 1].SetRejected?
    ensures LastAccepted(before, gains, readings) == if i > 0 then gains[i - 1] else before
  {
    if i < |gains| {
      LastAcceptedAt(before, gains[..|gains| - 1], readings[..|gains| - 1], i);
    }
  }

  /** What the choice says about the readings: a gain is chosen unless nothing could be read, and it is not clipping unless everything was. */
  lemma ChosenFromReadings(gains: seq<real>, readings: seq<Reading>, target: real, lna: real, threshold: real)
    requires |readings| == |gains|
    ensures var choice := Choose(Measurements(gains, readings), target, lna, threshold);
            && (choice.None? <==> forall r <- readings :: !r.Reading?)
            && (choice.Some? ==>
                  var m := choice.value.measurement;
                  && m.Levels?
                  && (m.clipping <= threshold <==> exists r <- readings :: r.Reading? && r.clipping <= threshold)
                  && exists i | 0 <= i < |readings| ::
                       readings[i].Reading? && m == Levels(gains[i], readings[i].rms, readings[i].clipping))
  {
    var ms := Measurements(gains, readings);
    ChoiceIsLayeredArgmax(ms, target, lna, threshold);
    assert forall i | 0 <= i < |ms| :: ms[i] in ms && (ms[i].Levels? <==> readings[i].Reading?);
    assert forall i | 0 <= i < |ms| :: readings[i] in readings && (Usable(ms[i], threshold) <==> readings[i].Reading? && readings[i].clipping <= threshold);
  }

  /** How far a sweep gets: up to the first reading that raises. */
  function Swept(readings: seq<Reading>): (n: nat)
    ensures n <= |readings|
    ensures forall i | 0 <= i < n :: !readings[i].ReadRaises?
    ensures n < |readings| ==> readings[n].ReadRaises?
  {
    if readings == [] || readings[0].ReadRaises? then 0 else 1 + Swept(readings[1..])
  }

  lemma {:induction false} SweptAt(readings: seq<Reading>, n: nat)
    requires n <= |readings| && (forall i | 0 <= i < n :: !readings[i].ReadRaises?)
    requires n < |readings| ==> readings[n].ReadRaises?
    ensures Swept(readings) == n
  {
    if n > 0 {
      SweptAt(readings[1..], n - 1);
    }
  }

  class Tuner {
    var gain: real

    constructor (gain: real)
      ensures this.gain == gain
    {
      this.gain := gain;
    }

    /**
     One measurement per candidate, in order, whether the setting is refused or nothing can be read. Only
     a reading that raises ends the sweep, with the tuner left at the gain it was to measure.
     */
    method Sweep(gains: seq<real>, readings: seq<Reading>) returns (ms: seq<Measurement>, raised: bool)
      requires |readings| == |gains|
      modifies this
      ensures raised <==> exists r <- readings :: r.ReadRaises?
      ensures raised ==> Swept(readings) < |gains| && gain == gains[Swept(readings)]
      ensures !raised ==> ms == Measurements(gains, readings) && gain == LastAccepted(old(gain), gains, readings)
    {
      ms, raised := [], false;
      for i := 0 to |gains|
        invariant ms == Measurements(gains[..i], readings[..i])
        invariant gain == LastAccepted(old(gain), gains[..i], readings[..i])
        invariant forall j | 0 <= j < i :: !readings[j].ReadRaises?
      {
        assert gains[..i + 1][..i] == gains[..i] && readings[..i + 1][..i] == readings[..i];
        if !readings[i].SetRejected? {
          gain := gains[i];
        }
        if readings[i].ReadRaises? {
          SweptAt(readings, i);
          assert readings[i] in readings;
          return ms, true;
        }
        ms := ms + [Measured(gains[i], readings[i])];
      }
      assert gains[..|gains|] == gains && readings[..|gains|] == readings;
    }

    /**
     The calibration leaves the tuner at the chosen gain, or, when nothing could be measured or the
     chosen gain was refused, back at the gain it started from, provided that one could be read and is
     accepted again; otherwise the tuner stays where the sweep left it. A reading that raises makes the
     command fail with the tuner at the gain being measured: nothing is restored.
     */
    method Calibrate(gMin: real, gMax: real, readings: seq<Reading>, target: real, lna: real, threshold: real,
                     startKnown: bool, applyOk: bool, restoreOk: bool)
      returns (choice: Option<Choice>, raised: bool)
      requires |readings| == |CandidateGains(gMin, gMax)|
      modifies this
      ensures raised <==> exists r <- readings :: r.ReadRaises?
      ensures raised ==> choice.None? && Swept(readings) < |readings| && gain == CandidateGains(gMin, gMax)[Swept(readings)]
      ensures !raised ==> choice == Choose(Measurements(CandidateGains(gMin, gMax), readings), target, lna, threshold)
      ensures choice.Some? && applyOk ==> gain == choice.value.measurement.gain
      ensures !raised && (choice.None? || !applyOk) ==>
                gain == if startKnown && restoreOk then old(gain)
                        else LastAccepted(old(gain), CandidateGains(gMin, gMax), readings)
    {
      var starting := if startKnown then Some(gain) else None;
      var gains := CandidateGains(gMin, gMax);
      var ms;
      ms, raised := Sweep(gains, readings);
      if raised {
        return None, true;
      }
      choice := Choose(ms, target, lna, threshold);
      if choice.Some? && applyOk {
        gain := choice.value.measurement.gain;
      } else if starting.Some? && restoreOk {
        gain := starting.value;
      }
    }
  }
}
