/** When the receivers' plausibility guards let everything through: hosts whose clocks, over a whole run,
    stay together within a day less one millisecond for each command issued. */
module ClockBounds {
  import opened Ordering
  import opened Brightness
  import opened MultiSync
  import opened NoStorm
  import opened Convergence

  /** Clocks read between lo and hi, and no gain window reaches past the plausible band. */
  predicate ClockOk(step: Step, lo: int, hi: int) {
    match step
    case Issue(_, cmd, now) => lo <= now <= hi && (cmd.SetGainBetween? ==> cmd.endMillis <= LATEST_PLAUSIBLE_MILLIS)
    case Deliver(_, now) => lo <= now
    case _ => true
  }

  predicate Band(lo: int, hi: int) {
    EARLIEST_PLAUSIBLE_MILLIS <= lo <= hi <= LATEST_PLAUSIBLE_MILLIS - MAX_FADE_SECONDS * 1000
  }

  predicate TimeOk(at: int, lo: int, top: int) {
    at == 0 || lo <= at <= top
  }

  predicate WindowsOk(c: Content) {
    && FadeWindowIsPlausible(c.ceiling.startMillis, c.ceiling.endMillis)
    && FadeWindowIsPlausible(c.gain.startMillis, c.gain.endMillis)
  }

  predicate EngineTimely(e: Engine, lo: int, top: int) {
    TimeOk(e.key.at, lo, top) && WindowsOk(e.content)
  }

  predicate PayloadTimely(p: Payload, lo: int, top: int) {
    TimeOk(p.changedAt, lo, top) && WindowsOk(p.content)
  }

  /** top bounds every time stamp in the system. */
  ghost predicate Timely(net: Net, lo: int, top: int) {
    && (forall i: nat | i < |net.nodes| :: EngineTimely(net.nodes[i].engine, lo, top))
    && (forall m <- net.published :: PayloadTimely(m.payload, lo, top))
  }

  lemma CommandKeepsTimely(h: Hash, e: Engine, cmd: Command, now: int, lo: int, hi: int, top: int)
    requires EngineTimely(e, lo, top) && e.key.at >= 0
    requires Band(lo, hi) && ClockOk(Issue(0, cmd, now), lo, hi) && hi <= top + 1
    ensures EngineTimely(Commanded(h, e, cmd, now), lo, top + 1)
  {
  }

  lemma DeliveryPasses(h: Hash, e: Engine, p: Payload, now: int, lo: int, hi: int, top: int)
    requires EngineTimely(e, lo, top) && PayloadTimely(p, lo, top)
    requires p.schemaVersion == SCHEMA_VERSION && p.content.InRange()
    requires Band(lo, hi) && lo <= now && top + 1 <= lo + MAX_KEY_AHEAD_MILLIS
    ensures Guard(p, now) == Adopted
    ensures EngineTimely(Adopt(h, e, p, now).0, lo, top + 1)
  {
    AdoptByKey(h, e, p, now);
  }

  lemma StepKeepsTimely(h: Hash, net: Net, step: Step, lo: int, hi: int, top: int)
    requires Inv(h, net) && Enabled(net, step) && Timely(net, lo, top)
    requires Band(lo, hi) && ClockOk(step, lo, hi) && hi <= top + 1 <= lo + MAX_KEY_AHEAD_MILLIS
    ensures Timely(Next(h, net, step), lo, top + 1)
    ensures PassesGuards(step)
  {
    hide WindowsOk, Commanded, Adopt, Band, Guard, OwnIsUnique, HeardOk, CopiesFor;
    match step
    case Issue(i, cmd, now) =>
      assert NodeOk(h, net, i);
      CommandKeepsTimely(h, net.nodes[i].engine, cmd, now, lo, hi, top);
    case Deliver(c, now) =>
      assert MsgOk(net, c.msg);
      DeliveryPasses(h, net.nodes[c.to].engine, c.msg.payload, now, lo, hi, top);
    case _ =>
  }

  lemma {:induction false} RunPassesGuards(h: Hash, net: Net, steps: seq<Step>, lo: int, hi: int, top: int)
    requires Inv(h, net) && Legal(h, net, steps) && Timely(net, lo, top)
    requires forall s <- steps :: ClockOk(s, lo, hi)
    requires Band(lo, hi) && hi <= top + 1 && top + |steps| <= lo + MAX_KEY_AHEAD_MILLIS
    ensures forall s <- steps :: PassesGuards(s)
    decreases |steps|
  {
    hide Inv, Timely, Next, PassesGuards, ClockOk, Enabled;
    if steps == [] {
    } else {
      StepKeepsTimely(h, net, steps[0], lo, hi, top);
      StepKeepsInv(h, net, steps[0]);
      RunPassesGuards(h, Next(h, net, steps[0]), steps[1..], lo, hi, top + 1);
      assert steps == [steps[0]] + steps[1..];
    }
  }

  /** From a fresh start, no delivery of any run within those clocks is turned away. */
  lemma NothingIsTurnedAway(h: Hash, ids: seq<Bytes>, steps: seq<Step>, lo: int, hi: int)
    requires Legal(h, StartNet(ids), steps)
    requires Band(lo, hi) && hi - lo + |steps| <= MAX_KEY_AHEAD_MILLIS
    requires forall s <- steps :: ClockOk(s, lo, hi)
    ensures forall s <- steps :: PassesGuards(s)
  {
    StartKeepsInv(h, ids);
    RunPassesGuards(h, StartNet(ids), steps, lo, hi, hi);
  }

  /** A group that starts fresh, within those clocks, agrees whenever nothing is owed and nothing is in flight: whatever
      the ids, the commands, and the order and number of the deliveries were. */
  lemma GroupAgrees(h: Hash, ids: seq<Bytes>, steps: seq<Step>, lo: int, hi: int)
    requires Legal(h, StartNet(ids), steps)
    requires Band(lo, hi) && hi - lo + |steps| <= MAX_KEY_AHEAD_MILLIS
    requires forall s <- steps :: ClockOk(s, lo, hi)
    requires var end := Run(h, StartNet(ids), steps); NoCollision(h, end) && !Pending(end)
    ensures Agreement(Run(h, StartNet(ids), steps))
  {
    NothingIsTurnedAway(h, ids, steps, lo, hi);
    StartKeepsInv(h, ids);
    StartAccounted(ids);
    LegalKeepsAccounted(h, StartNet(ids), steps);
    SettledMeansHeard(h, Run(h, StartNet(ids), steps));
    ConvergesWhenSettled(h, ids, steps);
  }

  lemma SettledMeansHeard(h: Hash, net: Net)
    requires Accounted(net) && !Pending(net)
    ensures AllHeard(net)
  {
  }
}
