/** Restart recovery of brightness.cpp: a restarted host is never brighter than it is known to have been. */
module Restart {
  import opened Fading
  import opened Brightness

  /** A fade forwards, of at most a day, with both ends dated; it has started, and the record is not from the future. */
  predicate Trusted(f: Fade, persistedAt: int, now: int) {
    && f.startMillis != 0 && f.endMillis != 0
    && TimestampIsPlausible(f.startMillis) && TimestampIsPlausible(f.endMillis)
    && 0 < f.endMillis - f.startMillis <= 24 * 60 * 60 * 1000
    && f.startMillis <= now && (persistedAt == 0 || persistedAt <= now)
  }

  /** Every branch of the per-fade rule. A recorded fade never resumes above the last applied value, and
      never later goes above the larger of that and its target. Timing that cannot be trusted holds the
      darker of the two for good. A trusted fade already below the applied value resumes unchanged; one above it goes
      on from there, evenly; and any that still runs ends at its own target at its own end time. With no fade on record
      the value is the target exactly. */
  lemma RestoredFadeRule(f: Fade, applied: real, persistedAt: int, now: int, later: int)
    requires later >= now
    ensures var r := RestoredFade(f, applied, persistedAt, now);
            var bound, target := ClampPercent(applied), ClampPercent(f.target);
            var recorded := f.startMillis != 0 || f.endMillis != 0;
            var trusted := Trusted(f, persistedAt, now);
            && r.InRange()
            && (!recorded ==> r.ValueAt(later) == target)
            && (recorded ==> r.ValueAt(now) <= bound)
            && (recorded ==> r.ValueAt(later) <= bound || r.ValueAt(later) <= target)
            && (recorded && !trusted ==> r.ValueAt(later) == MinReal(bound, target))
            && (recorded && trusted ==> r.ValueAt(now) == MinReal(bound, ClampFade(f).ValueAt(now)))
            && (recorded && trusted && ClampFade(f).ValueAt(now) <= bound ==> r == ClampFade(f))
            && (recorded && trusted && ClampFade(f).ValueAt(now) > bound && later <= f.endMillis ==>
                  Even(r.ValueAt(later), bound, target, later - now, f.endMillis - now))
            && (recorded && trusted && now < f.endMillis ==> r.ValueAt(f.endMillis) == target)
            && (recorded && trusted && now >= f.endMillis ==> r.ValueAt(now) == MinReal(bound, target))
  {
    var r := RestoredFade(f, applied, persistedAt, now);
    ValueBetweenEnds(r, now);
    ValueBetweenEnds(r, later);
    if r.Active() {
      ValueMonotone(r, now, later);
      if later <= r.endMillis && now == r.startMillis {
        ValueIsEven(r, later);
      }
    }
    hide Even;
  }

  /** What the restart makes of one recorded value, at the restart and at any later time. */
  ghost predicate NeverBrighter(r: Fade, f: Fade, applied: real, adopted: bool, now: int, later: int) {
    var bound, target := ClampPercent(applied), ClampPercent(f.target);
    var recorded := f.startMillis != 0 || f.endMillis != 0;
    && r.InRange()
    && (recorded || !adopted ==> r.ValueAt(now) <= bound && (r.ValueAt(later) <= bound || r.ValueAt(later) <= target))
    && (!adopted ==> r.ValueAt(later) == SafeValue(f, applied))
    && (adopted && !recorded ==> r.ValueAt(later) == target)
  }

  /** The whole record: both values, on every outcome of the restore. */
  lemma RestartIsNeverBrighter(h: Hash, e: Engine, p: Payload, now: int, later: int)
    requires later >= now
    ensures var (r, outcome) := Restored(h, e, p, now);
            && NeverBrighter(r.content.ceiling, p.content.ceiling, p.lastCeiling, outcome == Adopted, now, later)
            && NeverBrighter(r.content.gain, p.content.gain, p.lastGain, outcome == Adopted, now, later)
            && r.gateClosed == p.gateClosed
            && (outcome == Adopted <==> p.schemaVersion == SCHEMA_VERSION && TimestampIsPlausible(p.changedAt))
  {
    hide RestoredFade, Trusted, Even;
    RestoredFadeRule(p.content.ceiling, p.lastCeiling, p.persistedAt, now, later);
    RestoredFadeRule(p.content.gain, p.lastGain, p.persistedAt, now, later);
  }

  /** The composed output at the restart moment: with both fades on record it is no brighter than the
      last applied pair composed the same way. */
  lemma RestartOutputIsNeverBrighter(h: Hash, e: Engine, p: Payload, now: int)
    requires p.content.ceiling.startMillis != 0 || p.content.ceiling.endMillis != 0
    requires p.content.gain.startMillis != 0 || p.content.gain.endMillis != 0
    ensures EffectivePercent(Restored(h, e, p, now).0, now) <=
            Composed(ClampPercent(p.lastCeiling), ClampPercent(p.lastGain))
  {
    RestartIsNeverBrighter(h, e, p, now, now);
    var r := Restored(h, e, p, now).0;
    ValueBetweenEnds(r.content.ceiling, now);
    ValueBetweenEnds(r.content.gain, now);
    ComposedMonotone(r.content.ceiling.ValueAt(now), r.content.gain.ValueAt(now),
                     ClampPercent(p.lastCeiling), ClampPercent(p.lastGain));
  }
}
