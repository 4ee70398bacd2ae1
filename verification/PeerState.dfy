/** A peer's state, and the host's own after a restart (native/src/brightness.cpp): exactly what is taken of a
    payload, and that a captured state is restored as it was. */
module PeerState {
  import opened Basics
  import opened Ordering
  import opened CivilDate
  import opened Fading
  import opened Brightness

  /** The plausible times are those of this century. */
  lemma PlausibleMeansThisCentury(t: int)
    ensures TimestampIsPlausible(t) <==>
            t == 0 || DaysFromCivil(Date(2000, 1, 1)) * 86400000 <= t <= DaysFromCivil(Date(2100, 1, 1)) * 86400000
  {
  }

  /** A percentage is cut off at its bounds and otherwise left alone. */
  lemma ClampMeans(v: real)
    ensures 0.0 <= v <= 100.0 ==> ClampPercent(v) == v
    ensures v < 0.0 ==> ClampPercent(v) == 0.0
    ensures v > 100.0 ==> ClampPercent(v) == 100.0
  {
  }

  /** No fade, or one of at most a day in this century, forwards. */
  predicate PlainWindow(f: Fade) {
    || (f.startMillis == 0 && f.endMillis == 0)
    || (TimestampIsPlausible(f.startMillis) && f.startMillis != 0 && TimestampIsPlausible(f.endMillis)
        && 0 <= f.endMillis - f.startMillis <= 24 * 60 * 60 * 1000)
  }

  /** The published state is the later one: by its time, then by the sender's name, then by the hash of its content. */
  ghost predicate Outranks(h: Hash, p: Payload, k: Key) {
    || p.changedAt > k.at
    || (p.changedAt == k.at && exists n: nat :: FirstDiffers(k.id, p.instanceId, n))
    || (p.changedAt == k.at && k.id == p.instanceId && exists n: nat :: FirstDiffers(k.hash, h(p.content), n))
  }

  /** When a payload's brightness is taken: in the known version, at a plausible time that is not more than a day ahead,
      with plausible fades, and later than what is held. */
  lemma AdoptedIff(h: Hash, e: Engine, p: Payload, now: int)
    ensures Adopt(h, e, p, now).1 == Adopted <==>
            && p.schemaVersion == 1 && TimestampIsPlausible(p.changedAt) && p.changedAt - now <= 24 * 60 * 60 * 1000
            && PlainWindow(p.content.ceiling) && PlainWindow(p.content.gain) && Outranks(h, p, e.key)
  {
    SeqLessIff(e.key.id, p.instanceId);
    SeqLessIff(e.key.hash, h(p.content));
    hide SeqLess, FirstDiffers;
    if e.key.id == p.instanceId {
      assert !exists n: nat :: FirstDiffers(e.key.id, p.instanceId, n) by {
        SeqLessIrreflexive(e.key.id);
        SeqLessIff(e.key.id, e.key.id);
      }
    }
  }

  /** What is taken of it, field by field. The gate is taken apart from the rest, in the known version alone: if it is
      closed and newer than the one held. */
  lemma AdoptionTakes(h: Hash, e: Engine, p: Payload, now: int)
    requires p.content.InRange() && p.gateRevision <= MAX_GATE_REVISION
    ensures var (r, outcome) := Adopt(h, e, p, now);
            var gate := p.schemaVersion == 1 && p.gateClosed && p.gateRevision > e.gateRevision;
            && r.id == e.id && r.lastCeiling == e.lastCeiling && r.lastGain == e.lastGain
            && (if gate then r.gateClosed && r.gateRevision == p.gateRevision
                else r.gateClosed == e.gateClosed && r.gateRevision == e.gateRevision)
            && r.revision == e.revision + (if gate then 1 else 0) + (if outcome == Adopted then 1 else 0)
            && (if outcome == Adopted
                then r.content == p.content && r.key == Key(p.changedAt, p.instanceId, h(p.content))
                     && r.ceilingChangedAt == if TimestampIsPlausible(p.ceilingChangedAt) then p.ceilingChangedAt else 0
                else r.content == e.content && r.key == e.key && r.ceilingChangedAt == e.ceilingChangedAt)
  {
    hide TimestampIsPlausible;
  }

  /** What a host captured is what it has after a restart, whoever it was before: all of it but the fades, which
      Restart.RestoredFadeRule says, under its own name. */
  lemma CaptureComesBack(h: Hash, e: Engine, f: Engine, at: int, now: int)
    requires TimestampIsPlausible(e.key.at) && TimestampIsPlausible(e.ceilingChangedAt)
    requires 0.0 <= e.lastCeiling <= 100.0 && 0.0 <= e.lastGain <= 100.0 && e.gateRevision <= MAX_GATE_REVISION
    ensures var (r, outcome) := Restored(h, f, Captured(e, at), now);
            && outcome == Adopted
            && r == e.(key := Key(e.key.at, e.id, h(e.content)), content := r.content)
            && r.content.ceiling == RestoredFade(e.content.ceiling, e.lastCeiling, at, now)
            && r.content.gain == RestoredFade(e.content.gain, e.lastGain, at, now)
  {
    hide RestoredFade, TimestampIsPlausible;
  }

  /** A record that cannot be dated leaves the host as it was, but for the gate and for values held at the darker of
      what was applied and what was meant. */
  lemma UntrustedRecordIsDark(h: Hash, e: Engine, p: Payload, now: int, t: int)
    requires p.schemaVersion != 1 || !TimestampIsPlausible(p.changedAt)
    ensures var (r, outcome) := Restored(h, e, p, now);
            var c, g := r.content.ceiling.ValueAt(t), r.content.gain.ValueAt(t);
            && outcome == (if p.schemaVersion != 1 then UnsupportedVersion else ImplausibleTimestamp)
            && c == MinReal(ClampPercent(p.lastCeiling), ClampPercent(p.content.ceiling.target))
            && g == MinReal(ClampPercent(p.lastGain), ClampPercent(p.content.gain.target))
            && r == e.(content := r.content, lastCeiling := c, lastGain := g, gateClosed := p.gateClosed,
                       gateRevision := Min(p.gateRevision, MAX_GATE_REVISION))
  {
    hide TimestampIsPlausible;
  }

  /** The safe settle: the ceiling the host was set up with, a full gain, and the gate it is told, as a change of its
      own. */
  lemma SafeSettleMeans(h: Hash, e: Engine, percent: int, now: int, closed: bool, revision: nat, t: int)
    requires 0 <= percent <= 100 && revision <= MAX_GATE_REVISION
    ensures var r := SafeSettled(h, e, percent, now, closed, revision);
            && r.content.ceiling.ValueAt(t) == percent as real == r.lastCeiling
            && r.content.gain.ValueAt(t) == 100.0 == r.lastGain
            && r.gateClosed == closed && r.gateRevision == revision
            && r.id == e.id && r.revision == e.revision + 1 && r.ceilingChangedAt == e.ceilingChangedAt
            && r.key.id == e.id && r.key.hash == h(r.content)
            && r.key.at >= now && r.key.at > e.key.at && (r.key.at == now || r.key.at == e.key.at + 1)
  {
  }
}
