/** The order of a recovery (native/adapters/shared/fallback_executor.h): after a confirmed loss or a hand-back, a state
    report is attempted before any observation is posted. */
module ExecutorReports {
  import opened Basics
  import opened FallbackState
  import opened FallbackProgram
  import opened Executor
  import opened ExecutorSafety
  import opened ExecutorRun

  ghost predicate AnyReport(effects: seq<Effect>) {
    exists x :: x in effects && x.Reported?
  }

  /** A report has been owed since a loss was confirmed, a playlist handed back or a saved state found over, and none
      has been attempted since. */
  ghost function OwesAfter(cfg: Config, c: Core, owes: bool, s: Step): bool
    requires s.DoTick? || s.DoObserve?
  {
    match s
    case DoTick(env) =>
      var t := Tick(cfg, c, env);
      (ProbedNow(cfg, c, env) && Lost(cfg, t))
      || (!AnyReport(t.trace) && (owes || (!c.state.mode.Normal? && t.state.mode.Normal?)))
    case DoObserve(e, env) =>
      !AnyReport(Observe(cfg, c, e, env).trace)
        && (owes || EndsFallback(RestAtCutoff(c.(trace := []), e.at, env.wroteRest), e))
  }

  ghost predicate OwesAtStart(d: Disk, now: int, monotonic: int) {
    Restored(d, now, monotonic).trace != []
  }

  /** A pairing token, and a readable address for the coordinator. */
  ghost predicate Paired(s: Step) {
    match s
    case DoTick(env) => env.token.Some? && env.urlLater
    case DoObserve(_, env) => env.urlReadable
    case _ => false
  }

  /** What keeps the order: while a report is owed posts are held back, and once the coordinator answers it is due. */
  ghost predicate Ordered(cfg: Config, c: Core, owes: bool) {
    && (owes ==> c.report.owed)
    && (Lost(cfg, c) ==> c.report.owed)
    && (c.link.reachable ==> c.link.detector.failures == 0 && c.link.token.Some?)
    && (owes && c.link.reachable ==> c.report.due)
  }

  lemma ProbeKeepsOrder(cfg: Config, c: Core, owes: bool, env: TickEnv)
    requires Ordered(cfg, c, owes) && env.token.Some? && cfg.detector.failedProbesToConfirm > 0
    ensures var d := ProbePart(cfg, c, env);
            Ordered(cfg, d, owes || (ProbedNow(cfg, c, env) && Lost(cfg, d)))
    ensures var d := ProbePart(cfg, c, env);
            ProbedNow(cfg, c, env) && Lost(cfg, d) ==> !d.link.reachable
  {
    hide ProbeDue;
  }

  lemma HandBackKeepsOrder(cfg: Config, c: Core, owes: bool, now: int)
    requires Ordered(cfg, c, owes) && cfg.detector.failedProbesToConfirm > 0 && !AnyReport(c.trace)
    ensures var d := HandBack(c, now, true);
            Ordered(cfg, d, !AnyReport(d.trace)) && (AnyReport(d.trace) <==> c.link.reachable) && d.link == c.link
  {
    var d := HandBack(c, now, true);
    if c.link.reachable {
      assert d.trace == c.trace + [Wrote(None)] + [Reported(d.state)];
      assert Reported(d.state) in d.trace;
    } else {
      assert d.trace == c.trace + [Wrote(None)];
    }
  }

  lemma CoordinatorKeepsOrder(cfg: Config, c: Core, owes: bool, env: TickEnv, probedNow: bool)
    requires Ordered(cfg, c, owes) && cfg.detector.failedProbesToConfirm > 0 && (owes ==> !AnyReport(c.trace))
    ensures var d := CoordinatorPart(c, env, probedNow);
            && d.link == c.link && (AnyReport(c.trace) ==> AnyReport(d.trace))
            && Ordered(cfg, d, owes && !AnyReport(d.trace))
            && (!c.link.reachable ==> d == c)
  {
    var d := CoordinatorPart(c, env, probedNow);
    assert Lost(cfg, d) == Lost(cfg, c);
    var reportDue := ReportIsDue(c, env.now);
    var told := ReportPart(c, env.now, reportDue);
    assert reportDue ==> Reported(c.state) in told.trace;
    FetchSaysNothing(told, env, probedNow);
    if AnyReport(c.trace) {
      var x :| x in c.trace && x.Reported?;
      assert x in told.trace;
    }
    hide FetchPart;
  }

  lemma FetchSaysNothing(c: Core, env: TickEnv, probedNow: bool)
    ensures var d := FetchPart(c, env, probedNow);
            d.link == c.link && d.report == c.report && (forall x :: x in c.trace ==> x in d.trace)
            && (AnyReport(d.trace) <==> AnyReport(c.trace))
  {
    var d := FetchPart(c, env, probedNow);
    assert forall x :: x in d.trace ==> x in c.trace || x.Installed?;
  }

  lemma RestKeepsOrder(cfg: Config, c: Core, owes: bool, now: int, wrote: bool)
    requires Ordered(cfg, c, owes) && !AnyReport(c.trace)
    ensures var d := RestAtCutoff(c, now, wrote); Ordered(cfg, d, owes) && !AnyReport(d.trace) && d.link == c.link
  {
    hide CutoffPassed, Render;
  }

  lemma TickKeepsOrder(cfg: Config, c: Core, owes: bool, env: TickEnv)
    requires Ordered(cfg, c, owes) && Paired(DoTick(env)) && cfg.detector.failedProbesToConfirm > 0
    ensures Ordered(cfg, Tick(cfg, c, env), OwesAfter(cfg, c, owes, DoTick(env)))
  {
    OnlyTheClocksChangeTheMode(cfg, c, env);
    hide ProbePart, RestAtCutoff, HandBack, CoordinatorPart, ProbedNow, CutoffPassed, Lost;
    var begun := c.(trace := []);
    assert Ordered(cfg, begun, owes) by {
      SameOrder(cfg, c, begun, owes);
    }
    var probed := ProbePart(cfg, begun, env);
    ProbeTouches(cfg, begun, env);
    ProbeKeepsOrder(cfg, begun, owes, env);
    ProbedNowLooksAt(cfg, c, begun, env);
    var confirmed := ProbedNow(cfg, c, env) && Lost(cfg, probed);
    RestKeepsOrder(cfg, probed, owes || confirmed, env.now, env.wroteRest);
    RestTouches(probed, env.now, env.wroteRest);
    var rested := RestAtCutoff(probed, env.now, env.wroteRest);
    HandBackKeepsOrder(cfg, rested, owes || confirmed, env.now);
    HandBackTouches(rested, env.now, env.urlLater);
    var settled := SettlePart(cfg, rested, env);
    var owing := if Settled(cfg, rested, env.monotonic) then !AnyReport(settled.trace) else owes || confirmed;
    CoordinatorKeepsOrder(cfg, settled, owing, env, ProbedNow(cfg, c, env));
    CoordinatorTouches(settled, env, ProbedNow(cfg, c, env));
    LostLooksAtTheLink(cfg, probed, Tick(cfg, c, env));
  }

  lemma SameOrder(cfg: Config, c: Core, d: Core, owes: bool)
    requires Ordered(cfg, c, owes) && d.link == c.link && d.report == c.report
    ensures Ordered(cfg, d, owes)
  {
  }

  lemma LostLooksAtTheLink(cfg: Config, c: Core, d: Core)
    requires d.link == c.link
    ensures Lost(cfg, d) == Lost(cfg, c)
  {
  }

  lemma ProbedNowLooksAt(cfg: Config, c: Core, d: Core, env: TickEnv)
    requires d.link == c.link && d.state == c.state
    ensures ProbedNow(cfg, d, env) == ProbedNow(cfg, c, env)
  {
  }

  /* ---- Callbacks ---- */

  lemma PersistSaysNothing(c: Core, o: Occurrence, wrote: bool)
    ensures var d := PersistOccurrence(c, o, wrote);
            d.link == c.link && d.report == c.report && (AnyReport(d.trace) <==> AnyReport(c.trace))
  {
  }

  lemma DeliverySaysNothing(c: Core, e: Event, p: Program, entry: Entry, env: DeliveryEnv)
    ensures var d := DeliverMatch(c, e, p, entry, env);
            d.link == c.link && d.report == c.report && (AnyReport(d.trace) <==> AnyReport(c.trace))
  {
    hide Plan, AllSent, StartedCount, AnyStopped, FirstProblem, CutoffMillis, PersistOccurrence,
         Executor.OccurrenceOf, AnyReport;
    var plan, cutoff := Plan(p, entry.targets, env, 0), CutoffMillis(p.expiresAt);
    var effects := AllSent(plan, e.entryKey, env, cutoff);
    var o := Executor.OccurrenceOf(e, plan, false);
    PersistSaysNothing(c, o, env.wroteFirst);
    var noted := PersistOccurrence(c, o, env.wroteFirst);
    SentAreRequests(plan, e.entryKey, env, cutoff);
    RequestsSayNothing(noted.trace, effects);
    PersistSaysNothing(noted.(trace := noted.trace + effects),
                       Executor.OccurrenceOf(e, plan, !AnyStopped(plan, env, cutoff)), env.wroteLast);
  }

  lemma RequestsSayNothing(a: seq<Effect>, b: seq<Effect>)
    requires forall x :: x in b ==> x.Sent? || x.Handed?
    ensures AnyReport(a + b) <==> AnyReport(a)
  {
  }

  lemma BoundarySaysNothing(cfg: Config, c: Core, e: Event, env: ObserveEnv)
    ensures var d := EntryBoundary(cfg, c, e, env);
            d.link == c.link && d.report.owed == c.report.owed && (c.report.due ==> d.report.due)
            && (AnyReport(d.trace) <==> AnyReport(c.trace))
  {
    hide DeliverMatch, UsableProblem, Resolve, Lost, AnyReport;
    var h := HostOf(c, env);
    var r := Resolve(h, e.entryKey, e.at);
    if r.Match? {
      var p := r.program;
      DeliverySaysNothing(c.(state := Entered(e.at, e.playlistName, p.packageId, p.revision, p.expiresAt),
                             report := c.report.(due := true)),
                          e, p, r.entry, env.delivery);
      DeliverySaysNothing(c, e, p, r.entry, env.delivery);
    }
  }

  lemma DecisionKeepsOrder(cfg: Config, c: Core, owes: bool, e: Event, env: ObserveEnv)
    requires Ordered(cfg, c, owes) && env.urlReadable && cfg.detector.failedProbesToConfirm > 0
    ensures var d := Decided(c, e, env);
            var ended := EndsFallback(RestAtCutoff(c.(trace := []), e.at, env.wroteRest), e);
            Ordered(cfg, d, !AnyReport(d.trace) && (owes || ended))
  {
    hide RestAtCutoff, HandBack, EndsFallback, PersistOccurrence, AnyReport, Lost;
    var begun := c.(trace := []);
    SameOrder(cfg, c, begun, owes);
    NoReportYet();
    RestKeepsOrder(cfg, begun, owes, e.at, env.wroteRest);
    var rested := RestAtCutoff(begun, e.at, env.wroteRest);
    HandBackKeepsOrder(cfg, rested, owes, e.at);
    var clear := Forgotten(rested.(waiting := rested.waiting.(undecided := false)));
    SameOrder(cfg, rested, Forgotten(rested), owes);
    SameOrder(cfg, rested, clear, owes);
    if rested.state.occurrence.Some? {
      PersistSaysNothing(clear, rested.state.occurrence.value.(delivered := true), env.wroteResume);
    }
    var d := Decided(c, e, env);
    if EndsFallback(rested, e) {
      SameOrder(cfg, HandBack(rested, e.at, true), d, !AnyReport(d.trace));
    } else {
      SameOrder(cfg, rested, d, owes);
    }
  }

  lemma NoReportYet()
    ensures !AnyReport([])
  {
  }

  lemma ObserveKeepsOrder(cfg: Config, c: Core, owes: bool, e: Event, env: ObserveEnv)
    requires Ordered(cfg, c, owes) && env.urlReadable && cfg.detector.failedProbesToConfirm > 0
    ensures Ordered(cfg, Observe(cfg, c, e, env), OwesAfter(cfg, c, owes, DoObserve(e, env)))
  {
    hide Decided, EntryBoundary, EndsFallback, RestAtCutoff, AnyReport;
    DecisionKeepsOrder(cfg, c, owes, e, env);
    BoundarySaysNothing(cfg, Seen(Decided(c, e, env), e), e, env);
  }

  /* ---- One process, from its start ---- */

  ghost predicate Alive(steps: seq<Step>) {
    forall s :: s in steps ==> (s.DoTick? || s.DoObserve?) && Paired(s)
  }

  function After(cfg: Config, c: Core, steps: seq<Step>): Core
    requires forall s :: s in steps ==> s.DoTick? || s.DoObserve?
    decreases |steps|
  {
    if steps == [] then c
    else
      assert steps[0] in steps;
      After(cfg, Full(cfg, Up(c), steps[0]), steps[1..])
  }

  ghost function OwesAfterAll(cfg: Config, c: Core, owes: bool, steps: seq<Step>): bool
    requires forall s :: s in steps ==> s.DoTick? || s.DoObserve?
    decreases |steps|
  {
    if steps == [] then owes
    else
      assert steps[0] in steps;
      OwesAfterAll(cfg, Full(cfg, Up(c), steps[0]), OwesAfter(cfg, c, owes, steps[0]), steps[1..])
  }

  lemma {:induction false} OrderIsKept(cfg: Config, c: Core, owes: bool, steps: seq<Step>)
    requires Ordered(cfg, c, owes) && Alive(steps) && cfg.detector.failedProbesToConfirm > 0
    ensures Ordered(cfg, After(cfg, c, steps), OwesAfterAll(cfg, c, owes, steps))
    decreases |steps|
  {
    hide Ordered, OwesAfter, Tick, Observe;
    if steps == [] {
    } else {
      var s := steps[0];
      assert s in steps;
      if s.DoTick? {
        TickKeepsOrder(cfg, c, owes, s.tick);
      } else {
        ObserveKeepsOrder(cfg, c, owes, s.event, s.env);
      }
      OrderIsKept(cfg, Full(cfg, Up(c), s), OwesAfter(cfg, c, owes, s), steps[1..]);
    }
  }

  lemma StartIsOrdered(cfg: Config, d: Disk, now: int, monotonic: int)
    requires cfg.detector.failedProbesToConfirm > 0
    ensures Ordered(cfg, Restored(d, now, monotonic), OwesAtStart(d, now, monotonic))
  {
    hide ParseState, CutoffPassed, Render;
  }

  /** A callback whose posts may go out is one before which every report that came to be owed, by a confirmed loss, a
      hand-back or a saved state that was over, has been attempted. */
  lemma ReportComesBeforePosts(cfg: Config, d: Disk, now: int, monotonic: int, steps: seq<Step>, e: Event,
                               env: ObserveEnv)
    requires Alive(steps) && env.urlReadable && cfg.detector.failedProbesToConfirm > 0
    requires !SkipsPosts(cfg, After(cfg, Restored(d, now, monotonic), steps), e, env)
    ensures var c := Restored(d, now, monotonic);
            !OwesAfter(cfg, After(cfg, c, steps), OwesAfterAll(cfg, c, OwesAtStart(d, now, monotonic), steps),
                       DoObserve(e, env))
  {
    hide Restored, OwesAfter, Observe, EndsFallback;
    var c := Restored(d, now, monotonic);
    var owes := OwesAtStart(d, now, monotonic);
    StartIsOrdered(cfg, d, now, monotonic);
    OrderIsKept(cfg, c, owes, steps);
    ObserveKeepsOrder(cfg, After(cfg, c, steps), OwesAfterAll(cfg, c, owes, steps), e, env);
  }
}
