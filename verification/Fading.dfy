/** native/include/showmesh/fading_value.h: one percentage with an optional linear fade. */
module Fading {

  /** The four fields a FadingValue holds. Times are epoch milliseconds. */
  datatype Fade = Fade(start: real, target: real, startMillis: int, endMillis: int) {

    predicate Active() {
      endMillis > startMillis
    }

    function ValueAt(now: int): real {
      if !Active() then target
      else if now <= startMillis then start
      else if now >= endMillis then target
      else start + (target - start) * ((now - startMillis) as real / (endMillis - startMillis) as real)
    }

    /** Both ends are percentages. */
    predicate InRange() {
      0.0 <= start <= 100.0 && 0.0 <= target <= 100.0
    }
  }

  const FULL := Fade(100.0, 100.0, 0, 0)

  function Settled(v: real): Fade {
    Fade(v, v, 0, 0)
  }

  function FadedTo(f: Fade, target: real, durationMillis: int, now: int): Fade {
    if durationMillis <= 0 then Settled(target)
    else Fade(f.ValueAt(now), target, now, now + durationMillis)
  }

  function FadedBetween(f: Fade, target: real, startMillis: int, endMillis: int, now: int): Fade {
    if endMillis <= now || endMillis <= startMillis then Settled(target)
    else Fade(f.ValueAt(now), target, if startMillis < now then now else startMillis, endMillis)
  }

  lemma ProductNonNegative(x: real, y: real)
    requires x >= 0.0 && y >= 0.0
    ensures x * y >= 0.0
  {
  }

  /** Moving by a larger fraction of the way from a to b never moves back. */
  lemma Interpolation(a: real, b: real, p: real, q: real)
    requires 0.0 <= p <= q <= 1.0
    ensures a <= b ==> a <= a + (b - a) * p <= a + (b - a) * q <= b
    ensures a >= b ==> b <= a + (b - a) * q <= a + (b - a) * p <= a
  {
    var d := if a <= b then b - a else a - b;
    ProductNonNegative(d, p);
    ProductNonNegative(d, q - p);
    ProductNonNegative(d, 1.0 - q);
    assert d * q == d * p + d * (q - p);
    assert d == d * q + d * (1.0 - q);
    assert (a - b) * p == -((b - a) * p) && (a - b) * q == -((b - a) * q);
  }

  /** Elapsed over span is a fraction that grows with time. */
  lemma FractionMonotone(x: int, y: int, span: int)
    requires 0 <= x <= y <= span && 0 < span
    ensures 0.0 <= x as real / span as real <= y as real / span as real <= 1.0
  {
    var s := span as real;
    assert x as real / s * s == x as real && y as real / s * s == y as real;
  }

  /** A fade never leaves the interval between its start and its target. */
  lemma ValueBetweenEnds(f: Fade, now: int)
    ensures f.start <= f.target ==> (f.Active() ==> f.start <= f.ValueAt(now)) && f.ValueAt(now) <= f.target
    ensures f.start >= f.target ==> f.target <= f.ValueAt(now) && (f.Active() ==> f.ValueAt(now) <= f.start)
    ensures f.InRange() ==> 0.0 <= f.ValueAt(now) <= 100.0
  {
    if f.Active() && f.startMillis < now < f.endMillis {
      FractionMonotone(now - f.startMillis, now - f.startMillis, f.endMillis - f.startMillis);
      var q := (now - f.startMillis) as real / (f.endMillis - f.startMillis) as real;
      Interpolation(f.start, f.target, q, q);
    }
  }

  /** Along time a fade only moves towards its target: it never turns back. */
  lemma ValueMonotone(f: Fade, a: int, b: int)
    requires a <= b && f.Active()
    ensures f.start <= f.target ==> f.ValueAt(a) <= f.ValueAt(b)
    ensures f.start >= f.target ==> f.ValueAt(a) >= f.ValueAt(b)
  {
    ValueBetweenEnds(f, a);
    ValueBetweenEnds(f, b);
    if f.startMillis < a && b < f.endMillis {
      var span := f.endMillis - f.startMillis;
      FractionMonotone(a - f.startMillis, b - f.startMillis, span);
      Interpolation(f.start, f.target, (a - f.startMillis) as real / span as real,
                    (b - f.startMillis) as real / span as real);
    }
  }

  /** The value v has gone as far from one value to another as the time has of its span. */
  ghost predicate Even(v: real, from: real, to: real, elapsed: int, span: int) {
    (v - from) * span as real == (to - from) * elapsed as real
  }

  /** Between its ends a fade goes evenly. */
  lemma ValueIsEven(f: Fade, now: int)
    requires f.Active() && f.startMillis <= now <= f.endMillis
    ensures Even(f.ValueAt(now), f.start, f.target, now - f.startMillis, f.endMillis - f.startMillis)
  {
    var elapsed, span := (now - f.startMillis) as real, (f.endMillis - f.startMillis) as real;
    assert elapsed / span * span == elapsed;
    assert (f.target - f.start) * (elapsed / span) * span == (f.target - f.start) * (elapsed / span * span);
  }

  /** Replacing a running fade is continuous unless the new target is to apply at once. */
  lemma ReplacementIsContinuous(f: Fade, target: real, startMillis: int, endMillis: int, duration: int, now: int)
    ensures duration > 0 ==> FadedTo(f, target, duration, now).ValueAt(now) == f.ValueAt(now)
    ensures duration > 0 ==> FadedTo(f, target, duration, now).ValueAt(now + duration) == target
    ensures endMillis > now && endMillis > startMillis ==>
              forall t | now <= t <= startMillis || t == now ::
                FadedBetween(f, target, startMillis, endMillis, now).ValueAt(t) == f.ValueAt(now)
    ensures endMillis <= now || endMillis <= startMillis ==>
              FadedBetween(f, target, startMillis, endMillis, now).ValueAt(now) == target
    ensures var end := if endMillis > now then endMillis else now;
            FadedBetween(f, target, startMillis, endMillis, now).ValueAt(end) == target
  {
  }

  /** What fading_value.h keeps in its four private members and updates in place. */
  class FadingValue {
    var start: real
    var target: real
    var startMillis: int
    var endMillis: int

    function Value(): Fade
      reads this
    {
      Fade(start, target, startMillis, endMillis)
    }

    constructor (value: real)
      ensures Value() == Settled(value)
    {
      start, target := value, value;
      startMillis, endMillis := 0, 0;
    }

    method FadeTo(newTarget: real, durationMillis: int, now: int)
      modifies this
      ensures Value() == FadedTo(old(Value()), newTarget, durationMillis, now)
    {
      var from := Value().ValueAt(now);
      if durationMillis <= 0 {
        start, target := newTarget, newTarget;
        startMillis, endMillis := 0, 0;
        return;
      }
      start := from;
      target := newTarget;
      startMillis := now;
      endMillis := now + durationMillis;
    }

    method FadeBetween(newTarget: real, newStartMillis: int, newEndMillis: int, now: int)
      modifies this
      ensures Value() == FadedBetween(old(Value()), newTarget, newStartMillis, newEndMillis, now)
    {
      if newEndMillis <= now || newEndMillis <= newStartMillis {
        FadeTo(newTarget, 0, now);
        return;
      }
      start := Value().ValueAt(now);
      target := newTarget;
      startMillis := if newStartMillis < now then now else newStartMillis;
      endMillis := newEndMillis;
    }

    method Settle(v: real)
      modifies this
      ensures Value() == Settled(v)
    {
      start, target := v, v;
      startMillis, endMillis := 0, 0;
    }

    method Restore(f: Fade)
      modifies this
      ensures Value() == f
    {
      start, target := f.start, f.target;
      startMillis, endMillis := f.startMillis, f.endMillis;
    }
  }
}
