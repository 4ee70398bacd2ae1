/** native/src/brightness.cpp on values: what each engine operation does to the state a node holds.
    BrightnessEngine.dfy holds the class whose methods update that state in place. */
module Brightness {
  import opened Basics
  import opened Ordering
  import opened Fading

  const MAX_FADE_SECONDS := 86400
  const EARLIEST_PLAUSIBLE_MILLIS := 946684800000
  const LATEST_PLAUSIBLE_MILLIS := 4102444800000
  const MAX_KEY_AHEAD_MILLIS := 86400000
  const SCHEMA_VERSION := 1
  const MAX_GATE_REVISION := 9007199254740991

  /** The eight fields the ordering hash covers: both fades, and nothing else. */
  datatype Content = Content(ceiling: Fade, gain: Fade) {
    predicate InRange() {
      ceiling.InRange() && gain.InRange()
    }
  }

  const FULL_CONTENT := Content(FULL, FULL)

  /** SHA-256 of the canonical JSON of a Content, kept abstract. */
  type Hash = Content -> Bytes

  /** The MultiSync ordering key: time, then node id, then content hash. */
  datatype Key = Key(at: int, id: Bytes, hash: Bytes) {
    predicate Less(other: Key) {
      if at != other.at then at < other.at
      else if id != other.id then SeqLess(id, other.id)
      else SeqLess(hash, other.hash)
    }

    predicate Leq(other: Key) {
      this == other || Less(other)
    }
  }

  lemma KeyLessTransitive(a: Key, b: Key, c: Key)
    requires a.Less(b) && b.Less(c)
    ensures a.Less(c)
  {
    if a.at == b.at == c.at {
      if a.id != b.id && b.id != c.id {
        SeqLessTransitive(a.id, b.id, c.id);
        SeqLessAsymmetric(a.id, b.id);
        SeqLessAsymmetric(b.id, c.id);
      } else if a.id == b.id == c.id {
        SeqLessTransitive(a.hash, b.hash, c.hash);
      }
    }
  }

  /** Exactly one of: equal, below, above. */
  lemma KeyTrichotomy(a: Key, b: Key)
    ensures a.Less(b) ==> a != b && !b.Less(a)
    ensures a == b || a.Less(b) || b.Less(a)
  {
    SeqLessTotal(a.id, b.id);
    SeqLessTotal(a.hash, b.hash);
    SeqLessIrreflexive(a.hash);
    if SeqLess(a.id, b.id) {
      SeqLessAsymmetric(a.id, b.id);
    }
    if SeqLess(a.hash, b.hash) {
      SeqLessAsymmetric(a.hash, b.hash);
    }
  }

  lemma KeyLeqTransitive(a: Key, b: Key, c: Key)
    requires a.Leq(b) && b.Leq(c)
    ensures a.Leq(c)
  {
    if a != b && b != c {
      KeyLessTransitive(a, b, c);
    }
  }

  /** The full-state document nodes broadcast and persist. */
  datatype Payload = Payload(
    schemaVersion: int,
    revision: nat,
    changedAt: int,
    instanceId: Bytes,
    content: Content,
    lastCeiling: real,
    lastGain: real,
    persistedAt: int,
    gateClosed: bool,
    gateRevision: nat,
    ceilingChangedAt: int)

  /** The shared and private state of one engine. key.at is stateChangedAtMillis_; key.id and key.hash
      are the stored ordering key, which an adoption copies from its sender. */
  datatype Engine = Engine(
    id: Bytes,
    content: Content,
    key: Key,
    revision: nat,
    ceilingChangedAt: int,
    lastCeiling: real,
    lastGain: real,
    gateClosed: bool,
    gateRevision: nat)

  /** An engine that has just been constructed and given its identity. */
  function Fresh(id: Bytes): Engine {
    Engine(id, FULL_CONTENT, Key(0, id, []), 0, 0, 100.0, 100.0, false, 0)
  }

  datatype Adoption = Adopted | StaleRevision | UnsupportedVersion | InvalidFadeWindow | ImplausibleTimestamp

  datatype Command =
    | SetCeiling(percent: int, fadeSeconds: int)
    | SetGain(percent: int, fadeSeconds: int)
    | SetGainBetween(percent: int, startMillis: int, endMillis: int)
    | SetWeatherGate(closed: bool, revision: nat)

  function MinReal(a: real, b: real): real {
    if b < a then b else a
  }

  function ClampPercent(v: real): real {
    if v < 0.0 then 0.0 else if v > 100.0 then 100.0 else v
  }

  function ClampFade(f: Fade): Fade {
    f.(start := ClampPercent(f.start), target := ClampPercent(f.target))
  }

  function ClampContent(c: Content): Content {
    Content(ClampFade(c.ceiling), ClampFade(c.gain))
  }

  predicate TimestampIsPlausible(t: int) {
    t == 0 || EARLIEST_PLAUSIBLE_MILLIS <= t <= LATEST_PLAUSIBLE_MILLIS
  }

  predicate FadeWindowIsPlausible(start: int, end: int) {
    || (start == 0 && end == 0)
    || (&& start <= end
        && EARLIEST_PLAUSIBLE_MILLIS <= start <= LATEST_PLAUSIBLE_MILLIS
        && EARLIEST_PLAUSIBLE_MILLIS <= end <= LATEST_PLAUSIBLE_MILLIS
        && end - start <= MAX_FADE_SECONDS * 1000)
  }

  predicate ValidAction(percent: int, fadeSeconds: int) {
    0 <= percent <= 100 && 0 <= fadeSeconds <= MAX_FADE_SECONDS
  }

  /** What a command is refused for; a refused command changes nothing. */
  predicate Accepts(cmd: Command, now: int) {
    match cmd
    case SetCeiling(percent, fadeSeconds) => ValidAction(percent, fadeSeconds)
    case SetGain(percent, fadeSeconds) => ValidAction(percent, fadeSeconds)
    case SetGainBetween(percent, startMillis, endMillis) =>
      ValidAction(percent, 0) && endMillis - Max(startMillis, now) <= MAX_FADE_SECONDS * 1000
    case SetWeatherGate(_, _) => true
  }

  function NewContent(c: Content, cmd: Command, now: int): Content {
    match cmd
    case SetCeiling(percent, fadeSeconds) => c.(ceiling := FadedTo(c.ceiling, percent as real, fadeSeconds * 1000, now))
    case SetGain(percent, fadeSeconds) => c.(gain := FadedTo(c.gain, percent as real, fadeSeconds * 1000, now))
    case SetGainBetween(percent, startMillis, endMillis) =>
      c.(gain := FadedBetween(c.gain, percent as real, startMillis, endMillis, now))
    case SetWeatherGate(_, _) => c
  }

  /** A local change outranks what it replaces, whatever the clock says. */
  function Bumped(h: Hash, e: Engine, now: int): Engine {
    e.(revision := e.revision + 1, key := Key(Max(now, e.key.at + 1), e.id, h(e.content)))
  }

  function NextGateRevision(held: nat, given: nat): nat {
    Max(Min(held + 1, MAX_GATE_REVISION), Min(given, MAX_GATE_REVISION))
  }

  function Commanded(h: Hash, e: Engine, cmd: Command, now: int): Engine {
    if !Accepts(cmd, now) then e
    else
      var changed := e.(content := NewContent(e.content, cmd, now));
      match cmd
      case SetCeiling(_, _) =>
        var b := Bumped(h, changed, now);
        b.(ceilingChangedAt := b.key.at)
      case SetWeatherGate(closed, revision) =>
        Bumped(h, changed.(gateClosed := closed, gateRevision := NextGateRevision(e.gateRevision, revision)), now)
      case _ => Bumped(h, changed, now)
  }

  function Captured(e: Engine, now: int): Payload {
    Payload(SCHEMA_VERSION, e.revision, e.key.at, e.id, e.content, e.lastCeiling, e.lastGain, now, e.gateClosed,
            e.gateRevision, e.ceilingChangedAt)
  }

  /** The key a receiver compares: the sender's own id, whoever's state it relays. */
  function PublishedKey(h: Hash, p: Payload): Key {
    Key(p.changedAt, p.instanceId, h(p.content))
  }

  /** A peer's closed gate is taken at a strictly newer revision, before any other check. */
  function GateAdopted(e: Engine, p: Payload): Engine {
    if p.gateClosed && p.gateRevision > e.gateRevision then
      e.(gateClosed := true, gateRevision := Min(p.gateRevision, MAX_GATE_REVISION), revision := e.revision + 1)
    else e
  }

  /** Checks on a payload that come before its ordering key is looked at. */
  function Guard(p: Payload, now: int): Adoption {
    if p.schemaVersion != SCHEMA_VERSION then UnsupportedVersion
    else if !TimestampIsPlausible(p.changedAt) || p.changedAt - MAX_KEY_AHEAD_MILLIS > now then ImplausibleTimestamp
    else if !FadeWindowIsPlausible(p.content.ceiling.startMillis, p.content.ceiling.endMillis) ||
            !FadeWindowIsPlausible(p.content.gain.startMillis, p.content.gain.endMillis) then InvalidFadeWindow
    else Adopted
  }

  function Adopt(h: Hash, e: Engine, p: Payload, now: int): (Engine, Adoption) {
    if p.schemaVersion != SCHEMA_VERSION then (e, UnsupportedVersion)
    else
      var g := GateAdopted(e, p);
      if Guard(p, now) != Adopted then (g, Guard(p, now))
      else if !e.key.Less(PublishedKey(h, p)) then (g, StaleRevision)
      else
        (g.(content := ClampContent(p.content),
            key := PublishedKey(h, p),
            revision := g.revision + 1,
            ceilingChangedAt := if TimestampIsPlausible(p.ceilingChangedAt) then p.ceilingChangedAt else 0), Adopted)
  }

  /** Only the private render history moves when a frame is output. */
  function FrameApplied(e: Engine, now: int): Engine {
    e.(lastCeiling := e.content.ceiling.ValueAt(now), lastGain := e.content.gain.ValueAt(now))
  }

  /** Ceiling and gain put together; half rounds up. */
  function Composed(ceiling: real, gain: real): int {
    (ClampPercent(ceiling * gain / 100.0) + 0.5).Floor
  }

  /** The percentage put on the channels. */
  function EffectivePercent(e: Engine, now: int): int {
    if e.gateClosed then 0 else Composed(e.content.ceiling.ValueAt(now), e.content.gain.ValueAt(now))
  }

  /** Lowering either value never raises the output. */
  lemma ComposedMonotone(c: real, g: real, cb: real, gb: real)
    requires 0.0 <= c <= cb && 0.0 <= g <= gb
    ensures 0 <= Composed(c, g) <= Composed(cb, gb) <= 100
  {
    ProductNonNegative(c, gb - g);
    ProductNonNegative(cb - c, gb);
    assert cb * gb - c * g == c * (gb - g) + (cb - c) * gb;
    var x, y := c * g, cb * gb;
    assert x / 100.0 <= y / 100.0;
  }

  /** The whole percentage next to a real one, a half counting up. */
  predicate Nearest(percent: int, x: real) {
    x - 0.5 < percent as real <= x + 0.5
  }

  /** One percentage of another. */
  function Share(ceiling: real, gain: real): real {
    ceiling * gain / 100.0
  }

  /** With an open gate the percentage is ceiling times gain over 100, to the nearest; with a closed one it is 0. */
  lemma PercentIsProduct(e: Engine, now: int)
    requires e.content.InRange()
    ensures !e.gateClosed ==>
              Nearest(EffectivePercent(e, now), Share(e.content.ceiling.ValueAt(now), e.content.gain.ValueAt(now)))
    ensures e.gateClosed ==> EffectivePercent(e, now) == 0
  {
    ValueBetweenEnds(e.content.ceiling, now);
    ValueBetweenEnds(e.content.gain, now);
    ComposedIsNearest(e.content.ceiling.ValueAt(now), e.content.gain.ValueAt(now));
    hide Composed, Nearest, Share;
  }

  lemma ComposedIsNearest(c: real, g: real)
    requires 0.0 <= c <= 100.0 && 0.0 <= g <= 100.0
    ensures Nearest(Composed(c, g), Share(c, g))
  {
    ProductNonNegative(c, g);
    ProductNonNegative(100.0 - c, g);
    var x := c * g;
    assert x == 100.0 * g - (100.0 - c) * g;
    assert 0.0 <= x / 100.0 <= 100.0;
  }

  lemma EffectivePercentIsAPercent(e: Engine, now: int)
    ensures 0 <= EffectivePercent(e, now) <= 100
  {
  }

  /* ---- Restart ---- */

  datatype WindowShape = NoFade | Implausible | Candidate

  function ClassifyWindow(start: int, end: int): WindowShape {
    if start == 0 && end == 0 then NoFade
    else if !FadeWindowIsPlausible(start, end) then Implausible
    else Candidate
  }

  predicate TimingIsTrustworthy(start: int, end: int, persistedAt: int, now: int) {
    end > start && now >= start && (persistedAt == 0 || now >= persistedAt)
  }

  /** The darker of what was applied and what was intended. */
  function SafeValue(f: Fade, applied: real): real {
    MinReal(ClampPercent(applied), ClampPercent(f.target))
  }

  /** One fade as restoreFromPersisted resumes it. */
  function RestoredFade(f: Fade, applied: real, persistedAt: int, now: int): Fade {
    match ClassifyWindow(f.startMillis, f.endMillis)
    case NoFade => Settled(ClampPercent(f.target))
    case Implausible => Settled(SafeValue(f, applied))
    case Candidate =>
      if !TimingIsTrustworthy(f.startMillis, f.endMillis, persistedAt, now) then Settled(SafeValue(f, applied))
      else
        var resumed := ClampFade(f);
        var bound := ClampPercent(applied);
        if resumed.ValueAt(now) <= bound then resumed
        else if now < f.endMillis then Fade(bound, resumed.target, now, f.endMillis)
        else Settled(bound)
  }

  function Restored(h: Hash, e: Engine, p: Payload, now: int): (Engine, Adoption) {
    var g := e.(gateClosed := p.gateClosed, gateRevision := Min(p.gateRevision, MAX_GATE_REVISION));
    if p.schemaVersion != SCHEMA_VERSION || !TimestampIsPlausible(p.changedAt) then
      var ceiling := SafeValue(p.content.ceiling, p.lastCeiling);
      var gain := SafeValue(p.content.gain, p.lastGain);
      (g.(content := Content(Settled(ceiling), Settled(gain)), lastCeiling := ceiling, lastGain := gain),
       if p.schemaVersion != SCHEMA_VERSION then UnsupportedVersion else ImplausibleTimestamp)
    else
      (g.(id := p.instanceId,
          key := Key(p.changedAt, p.instanceId, h(p.content)),
          revision := p.revision,
          ceilingChangedAt := if TimestampIsPlausible(p.ceilingChangedAt) then p.ceilingChangedAt else 0,
          lastCeiling := ClampPercent(p.lastCeiling),
          lastGain := ClampPercent(p.lastGain),
          content := Content(RestoredFade(p.content.ceiling, p.lastCeiling, p.persistedAt, now),
                             RestoredFade(p.content.gain, p.lastGain, p.persistedAt, now))), Adopted)
  }

  function SafeSettled(h: Hash, e: Engine, safeCeilingPercent: int, now: int, closed: bool, revision: nat): Engine {
    var ceiling := ClampPercent(safeCeilingPercent as real);
    Bumped(h, e.(content := Content(Settled(ceiling), FULL),
                 lastCeiling := ceiling,
                 lastGain := 100.0,
                 gateClosed := closed,
                 gateRevision := Min(revision, MAX_GATE_REVISION)), now)
  }
}
