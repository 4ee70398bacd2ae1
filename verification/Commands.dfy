/** What the commands of an engine mean (native/src/brightness.cpp), in plain numbers: the values shown from then on,
    and what is kept of the change. */
module Commands {
  import opened Basics
  import opened Ordering
  import opened Fading
  import opened Brightness

  /** From now on the fade goes from that value to percent, evenly over so many milliseconds. */
  ghost predicate GoesTo(from: real, f: Fade, percent: int, now: int, millis: int) {
    && (forall t :: t >= now + millis ==> f.ValueAt(t) == percent as real)
    && (forall t :: now <= t <= now + millis && millis > 0 ==>
          Even(f.ValueAt(t), from, percent as real, t - now, millis))
  }

  lemma FadedToGoes(f: Fade, percent: int, millis: int, now: int)
    requires millis >= 0
    ensures GoesTo(f.ValueAt(now), FadedTo(f, percent as real, millis, now), percent, now, millis)
  {
    hide Even;
    var g := FadedTo(f, percent as real, millis, now);
    forall t | now <= t <= now + millis && millis > 0
      ensures Even(g.ValueAt(t), f.ValueAt(now), percent as real, t - now, millis)
    {
      ValueIsEven(g, t);
    }
  }

  /** A ceiling of p percent over s seconds is taken exactly if p is a percentage and s at most a day. It is reached
      after s seconds, evenly from the value shown; the gain and the gate stay. */
  lemma SetCeilingMeans(h: Hash, e: Engine, p: int, s: int, now: int)
    ensures var r := Commanded(h, e, SetCeiling(p, s), now);
            if 0 <= p <= 100 && 0 <= s <= 86400 then
              && GoesTo(e.content.ceiling.ValueAt(now), r.content.ceiling, p, now, 1000 * s)
              && (s > 0 ==> r.content.ceiling.ValueAt(now) == e.content.ceiling.ValueAt(now))
              && r.content.gain == e.content.gain
              && IsChange(h, e, r, now) && r.ceilingChangedAt == r.key.at
              && r.gateClosed == e.gateClosed && r.gateRevision == e.gateRevision
            else r == e
  {
    if 0 <= p <= 100 && 0 <= s <= 86400 {
      FadedToGoes(e.content.ceiling, p, s * 1000, now);
    }
  }

  /** Likewise for a gain, with the ceiling kept. */
  lemma SetGainMeans(h: Hash, e: Engine, p: int, s: int, now: int)
    ensures var r := Commanded(h, e, SetGain(p, s), now);
            if 0 <= p <= 100 && 0 <= s <= 86400 then
              && GoesTo(e.content.gain.ValueAt(now), r.content.gain, p, now, 1000 * s)
              && (s > 0 ==> r.content.gain.ValueAt(now) == e.content.gain.ValueAt(now))
              && r.content.ceiling == e.content.ceiling
              && IsChange(h, e, r, now) && r.ceilingChangedAt == e.ceilingChangedAt
              && r.gateClosed == e.gateClosed && r.gateRevision == e.gateRevision
            else r == e
  {
    if 0 <= p <= 100 && 0 <= s <= 86400 {
      FadedToGoes(e.content.gain, p, s * 1000, now);
    }
  }

  lemma FadedBetweenGoes(f: Fade, percent: int, a: int, b: int, now: int)
    ensures var g, start := FadedBetween(f, percent as real, a, b, now), if a > now then a else now;
            if b > now && b > a
            then (forall t :: now <= t <= start ==> g.ValueAt(t) == f.ValueAt(now))
                 && GoesTo(f.ValueAt(now), g, percent, start, b - start)
            else forall t :: g.ValueAt(t) == percent as real
  {
    var g, start := FadedBetween(f, percent as real, a, b, now), if a > now then a else now;
    if b > now && b > a {
      hide Even;
      forall t | start <= t <= b
        ensures Even(g.ValueAt(t), f.ValueAt(now), percent as real, t - start, b - start)
      {
        ValueIsEven(g, t);
      }
    }
  }

  /** A gain between two times is taken exactly if what lies ahead of the window is at most a day long. The value shown
      is held until the window starts and goes evenly to p at its end; a window that is over, or is none, applies p at
      once. */
  lemma SetGainBetweenMeans(h: Hash, e: Engine, p: int, a: int, b: int, now: int)
    ensures var r := Commanded(h, e, SetGainBetween(p, a, b), now);
            var start := if a > now then a else now;
            if 0 <= p <= 100 && b - start <= 86400000 then
              && (if b > now && b > a
                  then (forall t :: now <= t <= start ==> r.content.gain.ValueAt(t) == e.content.gain.ValueAt(now))
                       && GoesTo(e.content.gain.ValueAt(now), r.content.gain, p, start, b - start)
                  else forall t :: r.content.gain.ValueAt(t) == p as real)
              && r.content.ceiling == e.content.ceiling
              && IsChange(h, e, r, now) && r.ceilingChangedAt == e.ceilingChangedAt
              && r.gateClosed == e.gateClosed && r.gateRevision == e.gateRevision
            else r == e
  {
    FadedBetweenGoes(e.content.gain, p, a, b, now);
    hide FadedBetween, GoesTo;
  }

  /** A gate write is always taken. The gate is as told, its revision the least that is after the one held and not
      before the one given, up to 2^53 - 1, and both fades stay. */
  lemma SetWeatherGateMeans(h: Hash, e: Engine, closed: bool, given: nat, now: int, other: nat)
    requires e.gateRevision <= 0x1F_FFFF_FFFF_FFFF
    ensures var r := Commanded(h, e, SetWeatherGate(closed, given), now);
            && r.content == e.content && r.gateClosed == closed
            && IsChange(h, e, r, now) && r.ceilingChangedAt == e.ceilingChangedAt
            && r.gateRevision <= 0x1F_FFFF_FFFF_FFFF
            && (e.gateRevision < 0x1F_FFFF_FFFF_FFFF ==> r.gateRevision > e.gateRevision)
            && (given <= 0x1F_FFFF_FFFF_FFFF ==> r.gateRevision >= given)
            && (other > e.gateRevision && other >= given ==> r.gateRevision <= other)
  {
  }

  /** A change made at this engine: its own key, at the first time that is neither past nor taken, and one revision
      more. What was last put on the channels is kept. */
  ghost predicate IsChange(h: Hash, e: Engine, r: Engine, now: int) {
    && r.key.at >= now && r.key.at > e.key.at && (r.key.at == now || r.key.at == e.key.at + 1)
    && r.key.id == e.id && r.key.hash == h(r.content)
    && r.id == e.id && r.revision == e.revision + 1
    && r.lastCeiling == e.lastCeiling && r.lastGain == e.lastGain
  }
}
