/** When the executor may act for the coordinator (native/adapters/shared/fallback_executor.h), over every run of
    ticks, callbacks, crashes and starts. */
module ExecutorSafety {
  import opened Basics
  import opened FallbackState
  import opened FallbackProgram
  import opened Executor

  /* ---- What each part of a step leaves alone ---- */

  lemma SavedTouches(c: Core, wrote: bool)
    ensures var d := Saved(c, wrote); d == c.(disk := d.disk, trace := d.trace) && d.disk.program == c.disk.program
  {
    hide Render;
  }

  lemma RestTouches(c: Core, now: int, wrote: bool)
    ensures var d := RestAtCutoff(c, now, wrote);
            && d == c.(state := d.state, report := d.report, disk := d.disk, trace := d.trace)
            && d.disk.program == c.disk.program && d.report == c.report.(due := d.report.due)
            && d.state == if c.state.mode.Fallback? && CutoffPassed(c.state, now) then Rested(c.state, now) else c.state
  {
    hide CutoffPassed, Saved;
    SavedTouches(c.(state := Rested(c.state, now), report := c.report.(due := true)), wrote);
  }

  lemma HandBackTouches(c: Core, now: int, urlReadable: bool)
    ensures var d := HandBack(c, now, urlReadable);
            && d == c.(state := NormalSince(now), waiting := c.waiting.(undecided := false),
                       debt := FetchDebt(true, true), report := d.report,
                       sight := c.sight.(forget := true), disk := c.disk.(file := None), trace := d.trace)
  {
  }

  lemma ProbeTouches(cfg: Config, c: Core, env: TickEnv)
    ensures var d := ProbePart(cfg, c, env); d == c.(link := d.link, report := d.report)
  {
    hide ProbeDue;
  }

  lemma CoordinatorTouches(c: Core, env: TickEnv, probedNow: bool)
    ensures var d := CoordinatorPart(c, env, probedNow);
            && d == c.(report := d.report, debt := d.debt, disk := d.disk, trace := d.trace)
            && d.disk.file == c.disk.file
            && (d.disk == c.disk || c.state.mode.Normal?)
  {
    hide ReportIsDue;
  }

  lemma PersistTouches(c: Core, o: Occurrence, wrote: bool)
    ensures var d := PersistOccurrence(c, o, wrote);
            && d == c.(state := d.state, disk := d.disk, trace := d.trace) && d.disk.program == c.disk.program
            && d.state == if c.state.mode.Fallback? then c.state.(occurrence := Some(o)) else c.state
  {
    hide Saved;
    SavedTouches(c.(state := c.state.(occurrence := Some(o))), wrote);
  }

  /* ---- Ticks ---- */

  /** What a tick makes of the state: rest at the cutoff, or hand back when FPP stayed idle after a start. */
  function StateAfterTick(cfg: Config, c: Core, now: int, monotonic: int): State {
    var s := if c.state.mode.Fallback? && CutoffPassed(c.state, now) then Rested(c.state, now) else c.state;
    if !s.mode.Normal? && c.waiting.undecided && monotonic - c.waiting.since >= cfg.restartSettle
      then NormalSince(now) else s
  }

  /** No answer and no silence of the coordinator, no program it sends and no report it takes changes the mode: the
      state after a tick is decided by the two clocks alone. */
  lemma OnlyTheClocksChangeTheMode(cfg: Config, c: Core, env: TickEnv)
    ensures Tick(cfg, c, env).state == StateAfterTick(cfg, c, env.now, env.monotonic)
  {
    hide ProbePart, RestAtCutoff, HandBack, CoordinatorPart, CutoffPassed, ProbedNow;
    var probed := ProbePart(cfg, c.(trace := []), env);
    var rested := RestAtCutoff(probed, env.now, env.wroteRest);
    ProbeTouches(cfg, c.(trace := []), env);
    RestTouches(probed, env.now, env.wroteRest);
    HandBackTouches(rested, env.now, env.urlLater);
    CoordinatorTouches(SettlePart(cfg, rested, env), env, ProbedNow(cfg, c, env));
  }

  /* ---- Callbacks ---- */

  /** Everything that has to be so for an entry to start a fallback. */
  ghost predicate MayEnter(cfg: Config, c: Core, e: Event, env: ObserveEnv, entered: State) {
    var h := HostOf(c, env);
    && (e.action.Start? || e.action.Playing?) && !SameOccurrence(c, e) && c.state.mode.Normal?
    && Lost(cfg, c) && e.identityResolved
    && UsableProblem(h, e.at).NoProblem?
    && Resolve(h, e.entryKey, e.at).Match?
    && c.disk.program.Some?
    && entered.playlistName == e.playlistName && entered.cutoffAt == c.disk.program.value.expiresAt
    && entered.packageId == c.disk.program.value.packageId && entered.packageRevision == c.disk.program.value.revision
  }

  /** The spell of fallback a state belongs to. */
  ghost predicate SameSpell(s: State, t: State) {
    s.playlistName == t.playlistName && s.packageId == t.packageId && s.packageRevision == t.packageRevision
    && s.cutoffAt == t.cutoffAt
  }

  lemma DeliveryTouches(c: Core, e: Event, p: Program, entry: Entry, env: DeliveryEnv)
    ensures var d := DeliverMatch(c, e, p, entry, env);
            && d == c.(state := d.state, disk := d.disk, trace := d.trace) && d.disk.program == c.disk.program
            && d.state.mode == c.state.mode && SameSpell(d.state, c.state)
  {
    hide Plan, AllSent, StartedCount, AnyStopped, FirstProblem, CutoffMillis, PersistOccurrence, Executor.OccurrenceOf;
    var plan := Plan(p, entry.targets, env, 0);
    var cutoff := CutoffMillis(p.expiresAt);
    var o := Executor.OccurrenceOf(e, plan, false);
    var noted := PersistOccurrence(c, o, env.wroteFirst);
    PersistTouches(c, o, env.wroteFirst);
    PersistTouches(noted.(trace := noted.trace + AllSent(plan, e.entryKey, env, cutoff)),
                   Executor.OccurrenceOf(e, plan, !AnyStopped(plan, env, cutoff)), env.wroteLast);
  }

  /** Fallback begins only at a new occurrence of an entry, with loss confirmed, a usable program, and exactly one
      complete and live entry of it for this key; otherwise a callback leaves the mode as the decision left it. */
  lemma FallbackBeginsOnlyAtAnEntry(cfg: Config, c: Core, e: Event, env: ObserveEnv)
    ensures var before, after := Decided(c, e, env), Observe(cfg, c, e, env);
            if before.state.mode.Normal? && !after.state.mode.Normal?
            then after.state.mode.Fallback? && MayEnter(cfg, before, e, env, after.state)
            else after.state.mode == before.state.mode && SameSpell(after.state, before.state)
  {
    hide Decided, EntryBoundary;
    var before := Decided(c, e, env);
    if (e.action.Start? || e.action.Playing?) && !SameOccurrence(before, e) {
      BoundaryMayEnter(cfg, Seen(before, e), e, env);
    }
  }

  /** What one entry boundary may do to the state. */
  lemma BoundaryMayEnter(cfg: Config, c: Core, e: Event, env: ObserveEnv)
    ensures var d, h := EntryBoundary(cfg, c, e, env), HostOf(c, env);
            && d == c.(state := d.state, report := d.report, disk := d.disk, trace := d.trace)
            && d.disk.program == c.disk.program
            && if c.state.mode.Normal? && !d.state.mode.Normal?
               then d.state.mode.Fallback? && Lost(cfg, c) && e.identityResolved && UsableProblem(h, e.at).NoProblem?
                    && Resolve(h, e.entryKey, e.at).Match? && c.disk.program.Some?
                    && d.state.playlistName == e.playlistName && d.state.cutoffAt == c.disk.program.value.expiresAt
                    && d.state.packageId == c.disk.program.value.packageId
                    && d.state.packageRevision == c.disk.program.value.revision
               else d.state.mode == c.state.mode && SameSpell(d.state, c.state)
  {
    hide DeliverMatch, UsableProblem, Resolve, Lost;
    var h := HostOf(c, env);
    var r := Resolve(h, e.entryKey, e.at);
    MatchIsTheOnlyEntry(h, e.entryKey, e.at);
    if r.Match? {
      var p := r.program;
      var entered := c.(state := Entered(e.at, e.playlistName, p.packageId, p.revision, p.expiresAt),
                        report := c.report.(due := true));
      DeliveryTouches(entered, e, p, r.entry, env.delivery);
      DeliveryTouches(c, e, p, r.entry, env.delivery);
    }
  }

  /** Before an entry is looked at, a callback can only rest or hand back. */
  lemma DecisionOnlyEnds(c: Core, e: Event, env: ObserveEnv)
    ensures var d := Decided(c, e, env);
            && (d.state.mode.Normal? || SameSpell(d.state, c.state))
            && (d.state.mode.Fallback? ==> c.state.mode.Fallback?)
            && (c.state.mode.Normal? ==> d.state.mode.Normal?)
            && d.disk.program == c.disk.program
  {
    hide CutoffPassed, RestAtCutoff, HandBack, ResumeSaved, EndsFallback;
    var rested := RestAtCutoff(c.(trace := []), e.at, env.wroteRest);
    RestTouches(c.(trace := []), e.at, env.wroteRest);
    HandBackTouches(rested, e.at, env.urlReadable);
    ResumeTouches(Forgotten(rested.(waiting := rested.waiting.(undecided := false))), e, rested.state.occurrence,
                  env.wroteResume);
  }

  lemma ResumeTouches(c: Core, e: Event, recorded: Option<Occurrence>, wrote: bool)
    ensures var d := ResumeSaved(c, e, recorded, wrote);
            && d == c.(state := d.state, disk := d.disk, sight := d.sight, trace := d.trace)
            && d.disk.program == c.disk.program
            && d.state == c.state.(occurrence := d.state.occurrence)
  {
    hide PersistOccurrence;
    if recorded.Some? {
      PersistTouches(c, recorded.value.(delivered := true), wrote);
    }
  }
}
