/** What the executor sends, and when (native/adapters/shared/fallback_executor.h): nothing to a node outside fallback
    or from the cutoff on, and no program installed outside normal. */
module ExecutorLimits {
  import opened Basics
  import opened Ordering
  import opened FallbackState
  import opened FallbackProgram
  import opened Executor
  import opened ExecutorSafety
  import opened ExecutorRun
  import NodeDelivery

  predicate ToNode(e: Effect) {
    e.Sent? || e.Handed?
  }

  /** Everything a part of a step added is of a kind that goes to no node and installs nothing. */
  ghost predicate AddsLocal(c: Core, d: Core) {
    forall e :: e in d.trace ==> e in c.trace || e.Wrote? || e.Reported?
  }

  lemma SavedAdds(c: Core, wrote: bool)
    ensures AddsLocal(c, Saved(c, wrote))
  {
    hide Render;
  }

  lemma RestAdds(c: Core, now: int, wrote: bool)
    ensures AddsLocal(c, RestAtCutoff(c, now, wrote))
  {
    hide CutoffPassed, Saved;
    SavedAdds(c.(state := Rested(c.state, now), report := c.report.(due := true)), wrote);
  }

  lemma HandBackAdds(c: Core, now: int, urlReadable: bool)
    ensures AddsLocal(c, HandBack(c, now, urlReadable))
  {
  }

  lemma PersistAdds(c: Core, o: Occurrence, wrote: bool)
    ensures AddsLocal(c, PersistOccurrence(c, o, wrote))
  {
    hide Saved;
    SavedAdds(c.(state := c.state.(occurrence := Some(o))), wrote);
  }

  /** A tick sends no activation, and hands no program to a node for one; and it installs only in normal. */
  lemma TickSendsNothing(cfg: Config, c: Core, env: TickEnv)
    ensures forall e :: e in Tick(cfg, c, env).trace ==>
            !ToNode(e) && (e.Installed? ==> Tick(cfg, c, env).state.mode.Normal?)
  {
    hide ProbePart, RestAtCutoff, HandBack, CoordinatorPart, ProbedNow, Settled;
    var begun := c.(trace := []);
    var probed := ProbePart(cfg, begun, env);
    ProbeTouches(cfg, begun, env);
    RestAdds(probed, env.now, env.wroteRest);
    var rested := RestAtCutoff(probed, env.now, env.wroteRest);
    HandBackAdds(rested, env.now, env.urlLater);
    CoordinatorAdds(SettlePart(cfg, rested, env), env, ProbedNow(cfg, c, env));
  }

  lemma CoordinatorAdds(c: Core, env: TickEnv, probedNow: bool)
    ensures var d := CoordinatorPart(c, env, probedNow);
            forall e :: e in d.trace ==> e in c.trace || e.Reported? || (e.Installed? && d.state.mode.Normal?)
  {
    hide ReportIsDue;
  }

  /* ---- Callbacks ---- */

  /** What goes to nodes goes in fallback, before the cutoff, and for this entry. */
  ghost predicate InTime(d: Core, e: Event) {
    forall x :: x in d.trace && ToNode(x) ==>
      d.state.mode.Fallback? && x.at < CutoffMillis(d.state.cutoffAt) && (x.Sent? ==> x.entryKey == e.entryKey)
  }

  ghost predicate NoneToNode(c: Core) {
    forall x :: x in c.trace ==> !ToNode(x) && !x.Installed?
  }

  lemma DeliveryRequestsInTime(d: Planned, key: Bytes, env: DeliveryEnv, cutoff: int)
    ensures forall x :: x in EffectsOf(d, key, DeliveryOf(d, env, cutoff).requests) ==>
              ToNode(x) && x.at < cutoff && (x.Sent? ==> x.entryKey == key)
  {
    hide NodeDelivery.Deliver;
    NodeDelivery.EveryDeliveryEnds(env.worlds(d.index), env.bodies(d.index), cutoff);
    var requests := DeliveryOf(d, env, cutoff).requests;
    var effects := EffectsOf(d, key, requests);
    forall x | x in effects
      ensures ToNode(x) && x.at < cutoff && (x.Sent? ==> x.entryKey == key)
    {
      var i :| 0 <= i < |effects| && effects[i] == x;
      assert requests[i] in requests;
    }
  }

  lemma {:induction false} AllSentInTime(plan: seq<Planned>, key: Bytes, env: DeliveryEnv, cutoff: int)
    ensures forall x :: x in AllSent(plan, key, env, cutoff) ==>
            ToNode(x) && x.at < cutoff && (x.Sent? ==> x.entryKey == key)
    decreases |plan|
  {
    hide DeliveryOf, EffectsOf;
    if plan == [] {
    } else {
      DeliveryRequestsInTime(plan[0], key, env, cutoff);
      AllSentInTime(plan[1..], key, env, cutoff);
    }
  }

  lemma DeliveryInTime(c: Core, e: Event, p: Program, entry: Entry, env: DeliveryEnv)
    requires NoneToNode(c) && c.state.mode.Fallback? && c.state.cutoffAt == p.expiresAt
    ensures InTime(DeliverMatch(c, e, p, entry, env), e)
    ensures forall x :: x in DeliverMatch(c, e, p, entry, env).trace ==> !x.Installed?
  {
    hide Plan, AllSent, StartedCount, AnyStopped, FirstProblem, CutoffMillis, PersistOccurrence, Executor.OccurrenceOf;
    var plan := Plan(p, entry.targets, env, 0);
    var cutoff := CutoffMillis(p.expiresAt);
    var o := Executor.OccurrenceOf(e, plan, false);
    PersistAdds(c, o, env.wroteFirst);
    AllSentInTime(plan, e.entryKey, env, cutoff);
    var noted := PersistOccurrence(c, o, env.wroteFirst);
    var sent := noted.(trace := noted.trace + AllSent(plan, e.entryKey, env, cutoff));
    PersistAdds(sent, Executor.OccurrenceOf(e, plan, !AnyStopped(plan, env, cutoff)), env.wroteLast);
    DeliveryTouches(c, e, p, entry, env);
  }

  lemma BoundaryInTime(cfg: Config, c: Core, e: Event, env: ObserveEnv)
    requires CoreOk(c) && NoneToNode(c)
    ensures InTime(EntryBoundary(cfg, c, e, env), e)
    ensures forall x :: x in EntryBoundary(cfg, c, e, env).trace ==> !x.Installed?
  {
    hide DeliverMatch, UsableProblem, Resolve, Lost, DiskOk, Resumable;
    var h := HostOf(c, env);
    var r := Resolve(h, e.entryKey, e.at);
    MatchIsTheOnlyEntry(h, e.entryKey, e.at);
    if r.Match? {
      var p := r.program;
      if c.state.mode.Normal? {
        var entered := c.(state := Entered(e.at, e.playlistName, p.packageId, p.revision, p.expiresAt),
                          report := c.report.(due := true));
        DeliveryInTime(entered, e, p, r.entry, env.delivery);
      } else if c.state.mode.Fallback? {
        DeliveryInTime(c, e, p, r.entry, env.delivery);
      }
    }
  }

  lemma DecidedSendsNothing(c: Core, e: Event, env: ObserveEnv)
    ensures NoneToNode(Decided(c, e, env))
  {
    hide RestAtCutoff, HandBack, EndsFallback, PersistOccurrence;
    var begun := c.(trace := []);
    RestAdds(begun, e.at, env.wroteRest);
    var rested := RestAtCutoff(begun, e.at, env.wroteRest);
    HandBackAdds(rested, e.at, env.urlReadable);
    var clear := Forgotten(rested.(waiting := rested.waiting.(undecided := false)));
    if rested.state.occurrence.Some? {
      PersistAdds(clear, rested.state.occurrence.value.(delivered := true), env.wroteResume);
    }
  }

  lemma ObserveInTime(cfg: Config, c: Core, e: Event, env: ObserveEnv)
    requires CoreOk(c)
    ensures InTime(Observe(cfg, c, e, env), e)
    ensures forall x :: x in Observe(cfg, c, e, env).trace ==> !x.Installed?
  {
    hide Decided, EntryBoundary, CutoffMillis, DiskOk, Resumable;
    DecidedKeeps(c, e, env);
    DecidedSendsNothing(c, e, env);
    BoundaryInTime(cfg, Seen(Decided(c, e, env), e), e, env);
  }

  /* ---- Over runs ---- */

  lemma {:induction false} PrefixRuns(cfg: Config, m: Machine, steps: seq<Step>, i: nat)
    requires CanRun(cfg, m, steps) && i < |steps|
    ensures CanRun(cfg, m, steps[..i]) && Possible(Run(cfg, m, steps[..i]), steps[i])
    decreases i
  {
    hide Next;
    if i == 0 {
    } else {
      PrefixRuns(cfg, Next(cfg, m, steps[0]), steps[1..], i - 1);
      assert steps[..i][1..] == steps[1..][..i - 1];
    }
  }

  lemma CutIsPart(effects: seq<Effect>, k: nat)
    ensures forall x :: x in Cut(effects, k) ==> x in effects
  {
  }

  /** In every run, whatever crashes and restarts it holds: what reaches a node is sent in fallback, before the cutoff
      that fallback was entered with, which is the installed program's own expiry; and a program is installed only in
      normal. */
  lemma EverythingSentIsInTime(cfg: Config, m: Machine, steps: seq<Step>, i: nat)
    requires MachineOk(m) && CanRun(cfg, m, steps) && i < |steps|
    ensures CanRun(cfg, m, steps[..i]) && Possible(Run(cfg, m, steps[..i]), steps[i])
    ensures var before := Run(cfg, m, steps[..i]);
            var full := Full(cfg, before, steps[i]);
            forall x :: x in EffectsOfStep(cfg, before, steps[i]) ==>
              && (ToNode(x) ==> full.state.mode.Fallback? && x.at < CutoffMillis(full.state.cutoffAt)
                                && EnteredWith(full.state, full.disk))
              && (x.Installed? ==> full.state.mode.Normal?)
  {
    PrefixRuns(cfg, m, steps, i);
    RunKeeps(cfg, m, steps[..i]);
    var before := Run(cfg, m, steps[..i]);
    StepInTime(cfg, before, steps[i]);
  }

  lemma StepInTime(cfg: Config, m: Machine, s: Step)
    requires MachineOk(m) && Possible(m, s)
    ensures var full := Full(cfg, m, s);
            forall x :: x in EffectsOfStep(cfg, m, s) ==>
              && (ToNode(x) ==> full.state.mode.Fallback? && x.at < CutoffMillis(full.state.cutoffAt)
                                && EnteredWith(full.state, full.disk))
              && (x.Installed? ==> full.state.mode.Normal?)
  {
    hide Tick, Observe, Restored, CutoffMillis, DiskOk, Resumable, Tracks;
    var full := Full(cfg, m, s);
    match s
    case DoStart(now, monotonic) =>
      RestoredSendsNothing(m.disk, now, monotonic);
    case DoTick(env) =>
      TickSendsNothing(cfg, m.core, env);
    case CrashInTick(env, k) =>
      TickSendsNothing(cfg, m.core, env);
      CutIsPart(full.trace, k);
    case DoObserve(e, env) =>
      ObserveInTime(cfg, m.core, e, env);
      ObserveKeeps(cfg, m.core, e, env);
    case CrashInObserve(e, env, k) =>
      ObserveInTime(cfg, m.core, e, env);
      ObserveKeeps(cfg, m.core, e, env);
      CutIsPart(full.trace, k);
  }

  lemma RestoredSendsNothing(d: Disk, now: int, monotonic: int)
    ensures forall x :: x in Restored(d, now, monotonic).trace ==> x == Wrote(None)
  {
    hide ParseState, CutoffPassed, Render;
  }
}
