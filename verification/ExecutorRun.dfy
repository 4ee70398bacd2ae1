/** Runs of the executor: ticks and callbacks, crashes at any point of either, and starts from what the disk then
    holds (native/adapters/shared/fallback_executor.h). */
module ExecutorRun {
  import opened Basics
  import opened Json
  import opened Ordering
  import opened FallbackState
  import opened FallbackProgram
  import opened SavedState
  import opened Executor
  import opened ExecutorSafety

  datatype Machine = Down(disk: Disk) | Up(core: Core)

  /** A crash cuts a step's effects short after the first k of them. */
  datatype Step =
    | DoTick(tick: TickEnv)
    | DoObserve(event: Event, env: ObserveEnv)
    | CrashInTick(tick: TickEnv, k: nat)
    | CrashInObserve(event: Event, env: ObserveEnv, k: nat)
    | DoStart(now: int, monotonic: int)

  predicate Possible(m: Machine, s: Step) {
    s.DoStart? <==> m.Down?
  }

  function Cut(effects: seq<Effect>, k: nat): seq<Effect> {
    if k <= |effects| then effects[..k] else effects
  }

  function DiskAfterOne(d: Disk, e: Effect): Disk {
    match e
    case Wrote(file) => d.(file := file)
    case Installed(p) => d.(program := Some(p))
    case _ => d
  }

  function DiskAfter(d: Disk, effects: seq<Effect>): Disk
    decreases |effects|
  {
    if effects == [] then d else DiskAfter(DiskAfterOne(d, effects[0]), effects[1..])
  }

  /** The step carried out in full. */
  function Full(cfg: Config, m: Machine, s: Step): Core
    requires Possible(m, s)
  {
    match s
    case DoTick(env) => Tick(cfg, m.core, env)
    case CrashInTick(env, _) => Tick(cfg, m.core, env)
    case DoObserve(e, env) => Observe(cfg, m.core, e, env)
    case CrashInObserve(e, env, _) => Observe(cfg, m.core, e, env)
    case DoStart(now, monotonic) => Restored(m.disk, now, monotonic)
  }

  function EffectsOfStep(cfg: Config, m: Machine, s: Step): seq<Effect>
    requires Possible(m, s)
  {
    match s
    case CrashInTick(_, k) => Cut(Full(cfg, m, s).trace, k)
    case CrashInObserve(_, _, k) => Cut(Full(cfg, m, s).trace, k)
    case _ => Full(cfg, m, s).trace
  }

  function DiskOf(m: Machine): Disk {
    match m
    case Down(disk) => disk
    case Up(core) => core.disk
  }

  function Next(cfg: Config, m: Machine, s: Step): Machine
    requires Possible(m, s)
  {
    if s.CrashInTick? || s.CrashInObserve? then Down(DiskAfter(DiskOf(m), EffectsOfStep(cfg, m, s)))
    else Up(Full(cfg, m, s))
  }

  ghost predicate CanRun(cfg: Config, m: Machine, steps: seq<Step>)
    decreases |steps|
  {
    steps == [] || (Possible(m, steps[0]) && CanRun(cfg, Next(cfg, m, steps[0]), steps[1..]))
  }

  function Run(cfg: Config, m: Machine, steps: seq<Step>): Machine
    requires CanRun(cfg, m, steps)
    decreases |steps|
  {
    if steps == [] then m else Run(cfg, Next(cfg, m, steps[0]), steps[1..])
  }

  /* ---- The invariant: what is saved, what is held and what is installed agree ---- */

  /** The state was entered with this very copy of the program. */
  ghost predicate EnteredWith(s: State, d: Disk) {
    && d.program.Some? && s.cutoffAt == d.program.value.expiresAt
    && s.packageId == d.program.value.packageId && s.packageRevision == d.program.value.revision
  }

  ghost predicate Resumable(d: Disk) {
    d.file.Some? && ParseState(d.file.value).Loaded?
  }

  /** A saved state that can be resumed was entered with the installed program. */
  ghost predicate DiskOk(d: Disk) {
    Resumable(d) ==> EnteredWith(ParseState(d.file.value).state, d)
  }

  ghost predicate CoreOk(c: Core) {
    && DiskOk(c.disk)
    && (if c.state.mode.Normal? then !Resumable(c.disk) else EnteredWith(c.state, c.disk))
  }

  ghost predicate MachineOk(m: Machine) {
    match m
    case Down(disk) => DiskOk(disk)
    case Up(core) => CoreOk(core)
  }

  /** Wherever the effects are cut short, the disk is one a start can rely on. */
  ghost predicate AlwaysOk(d: Disk, effects: seq<Effect>)
    decreases |effects|
  {
    DiskOk(d) && (effects == [] || AlwaysOk(DiskAfterOne(d, effects[0]), effects[1..]))
  }

  lemma {:induction false} AlwaysOkWhenCut(d: Disk, effects: seq<Effect>, k: nat)
    requires AlwaysOk(d, effects)
    ensures DiskOk(DiskAfter(d, Cut(effects, k)))
    decreases |effects|
  {
    hide DiskOk;
    if k > 0 && effects != [] {
      AlwaysOkWhenCut(DiskAfterOne(d, effects[0]), effects[1..], k - 1);
      assert Cut(effects, k)[1..] == Cut(effects[1..], k - 1);
    }
  }

  lemma {:induction false} DiskAfterAppend(d: Disk, a: seq<Effect>, b: seq<Effect>)
    ensures DiskAfter(d, a + b) == DiskAfter(DiskAfter(d, a), b)
    decreases |a|
  {
    if a == [] {
      assert a + b == b;
    } else {
      DiskAfterAppend(DiskAfterOne(d, a[0]), a[1..], b);
      assert (a + b)[1..] == a[1..] + b;
    }
  }

  lemma {:induction false} AlwaysOkAppend(d: Disk, a: seq<Effect>, b: seq<Effect>)
    requires AlwaysOk(d, a) && AlwaysOk(DiskAfter(d, a), b)
    ensures AlwaysOk(d, a + b)
    decreases |a|
  {
    hide DiskOk;
    if a == [] {
      assert a + b == b;
    } else {
      AlwaysOkAppend(DiskAfterOne(d, a[0]), a[1..], b);
      assert (a + b)[1..] == a[1..] + b;
    }
  }

  /** The step so far, from a disk as it was: the trace accounts for the disk as it is, and every cut is safe. */
  ghost predicate Tracks(was: Disk, c: Core) {
    DiskAfter(was, c.trace) == c.disk && AlwaysOk(was, c.trace)
  }

  lemma DidTracks(was: Disk, c: Core, d: Core, e: Effect)
    requires Tracks(was, c) && d.trace == c.trace + [e] && d.disk == DiskAfterOne(c.disk, e) && DiskOk(d.disk)
    ensures Tracks(was, d)
  {
    hide DiskOk, DiskAfterOne;
    assert [e][1..] == [];
    LastOk(was, c.trace);
    DiskAfterAppend(was, c.trace, [e]);
    AlwaysOkAppend(was, c.trace, [e]);
  }

  lemma {:induction false} LastOk(d: Disk, effects: seq<Effect>)
    requires AlwaysOk(d, effects)
    ensures DiskOk(DiskAfter(d, effects))
    decreases |effects|
  {
    hide DiskOk;
    if effects == [] {
    } else {
      LastOk(DiskAfterOne(d, effects[0]), effects[1..]);
    }
  }

  /* ---- Each part of a step keeps it ---- */

  lemma SavedKeeps(was: Disk, c: Core, wrote: bool)
    requires Tracks(was, c) && DiskOk(c.disk)
    requires !c.state.mode.Normal? ==> EnteredWith(c.state, c.disk)
    ensures Tracks(was, Saved(c, wrote)) && DiskOk(Saved(c, wrote).disk)
    ensures c.state.mode.Normal? ==> !Resumable(Saved(c, wrote).disk)
  {
    hide Render, ParseState, Restorable, DiskAfter, AlwaysOk;
    var d := Saved(c, wrote);
    if c.state.mode.Normal? {
      DidTracks(was, c, d, Wrote(None));
    } else if wrote {
      SavedStateComesBack(c.state);
      DidTracks(was, c, d, Wrote(Some(Render(c.state))));
    }
  }

  lemma RestKeeps(was: Disk, c: Core, now: int, wrote: bool)
    requires Tracks(was, c) && CoreOk(c)
    ensures Tracks(was, RestAtCutoff(c, now, wrote)) && CoreOk(RestAtCutoff(c, now, wrote))
  {
    hide CutoffPassed, DiskOk, Resumable, Saved, DiskAfter, AlwaysOk;
    if c.state.mode.Fallback? && CutoffPassed(c.state, now) {
      var d := c.(state := Rested(c.state, now), report := c.report.(due := true));
      SavedKeeps(was, d, wrote);
      SavedTouches(d, wrote);
    }
  }

  lemma ReportKeeps(was: Disk, c: Core, now: int)
    requires Tracks(was, c) && CoreOk(c)
    ensures Tracks(was, SendReport(c, now)) && CoreOk(SendReport(c, now))
  {
    hide DiskOk, Resumable;
    DidTracks(was, c, SendReport(c, now), Reported(c.state));
  }

  lemma HandBackKeeps(was: Disk, c: Core, now: int, urlReadable: bool)
    requires Tracks(was, c) && CoreOk(c)
    ensures Tracks(was, HandBack(c, now, urlReadable)) && CoreOk(HandBack(c, now, urlReadable))
  {
    hide DiskOk, Resumable, SendReport, DiskAfter, AlwaysOk;
    var silent := !c.link.reachable;
    var d := c.(state := NormalSince(now), waiting := c.waiting.(undecided := false), debt := FetchDebt(true, true),
                report := c.report.(due := silent, owed := silent), sight := c.sight.(forget := true));
    SavedKeeps(was, d, true);
    if !silent && urlReadable {
      ReportKeeps(was, Saved(d, true), now);
    }
  }

  lemma CoordinatorKeeps(was: Disk, c: Core, env: TickEnv, probedNow: bool)
    requires Tracks(was, c) && CoreOk(c)
    ensures Tracks(was, CoordinatorPart(c, env, probedNow)) && CoreOk(CoordinatorPart(c, env, probedNow))
  {
    hide SendReport, ReportIsDue, ParseState, DiskAfter, AlwaysOk;
    ReportKeeps(was, c, env.now);
    SendKeepsState(c, env.now);
    var d := ReportPart(c, env.now, ReportIsDue(c, env.now));
    FetchKeeps(was, d, env, probedNow);
    hide FetchPart;
  }

  lemma SendKeepsState(c: Core, now: int)
    ensures SendReport(c, now).state == c.state && SendReport(c, now).disk == c.disk
  {
  }

  lemma FetchKeeps(was: Disk, c: Core, env: TickEnv, probedNow: bool)
    requires Tracks(was, c) && CoreOk(c)
    ensures Tracks(was, FetchPart(c, env, probedNow)) && CoreOk(FetchPart(c, env, probedNow))
  {
    hide ParseState, DiskAfter, AlwaysOk;
    var d := FetchPart(c, env, probedNow);
    if d.trace != c.trace {
      DidTracks(was, c, d, Installed(env.fetched.value));
    }
  }

  lemma TickKeeps(cfg: Config, c: Core, env: TickEnv)
    requires CoreOk(c)
    ensures Tracks(c.disk, Tick(cfg, c, env)) && CoreOk(Tick(cfg, c, env))
  {
    hide ProbePart, RestAtCutoff, HandBack, CoordinatorPart, ProbedNow, DiskOk, Resumable, Settled;
    var begun := c.(trace := []);
    assert Tracks(c.disk, begun);
    var probed := ProbePart(cfg, begun, env);
    ProbeTouches(cfg, begun, env);
    RestKeeps(c.disk, probed, env.now, env.wroteRest);
    var rested := RestAtCutoff(probed, env.now, env.wroteRest);
    HandBackKeeps(c.disk, rested, env.now, env.urlLater);
    CoordinatorKeeps(c.disk, SettlePart(cfg, rested, env), env, ProbedNow(cfg, c, env));
  }

  lemma PersistKeeps(was: Disk, c: Core, o: Occurrence, wrote: bool)
    requires Tracks(was, c) && CoreOk(c)
    ensures Tracks(was, PersistOccurrence(c, o, wrote)) && CoreOk(PersistOccurrence(c, o, wrote))
  {
    hide DiskOk, Resumable, Saved, DiskAfter, AlwaysOk;
    if c.state.mode.Fallback? {
      var d := c.(state := c.state.(occurrence := Some(o)));
      SavedKeeps(was, d, wrote);
      SavedTouches(d, wrote);
    }
  }

  /** Requests to nodes change nothing on disk. */
  lemma {:induction false} RequestsKeep(d: Disk, effects: seq<Effect>)
    requires DiskOk(d) && forall e :: e in effects ==> e.Sent? || e.Handed?
    ensures DiskAfter(d, effects) == d && AlwaysOk(d, effects)
    decreases |effects|
  {
    hide DiskOk;
    if effects == [] {
    } else {
      assert effects[0] in effects;
      RequestsKeep(d, effects[1..]);
    }
  }

  lemma {:induction false} SentAreRequests(plan: seq<Planned>, key: Bytes, env: DeliveryEnv, cutoff: int)
    ensures forall e :: e in AllSent(plan, key, env, cutoff) ==> e.Sent? || e.Handed?
    decreases |plan|
  {
    hide DeliveryOf;
    if plan == [] {
    } else {
      var first := EffectsOf(plan[0], key, DeliveryOf(plan[0], env, cutoff).requests);
      forall e | e in first
        ensures e.Sent? || e.Handed?
      {
        var i :| 0 <= i < |first| && first[i] == e;
      }
      SentAreRequests(plan[1..], key, env, cutoff);
    }
  }

  lemma DeliveryKeeps(was: Disk, c: Core, e: Event, p: Program, entry: Entry, env: DeliveryEnv)
    requires Tracks(was, c) && CoreOk(c)
    ensures Tracks(was, DeliverMatch(c, e, p, entry, env)) && CoreOk(DeliverMatch(c, e, p, entry, env))
  {
    hide Plan, AllSent, StartedCount, AnyStopped, FirstProblem, CutoffMillis, PersistOccurrence, Executor.OccurrenceOf,
         DiskOk, Resumable, DiskAfter, AlwaysOk;
    var plan := Plan(p, entry.targets, env, 0);
    var cutoff := CutoffMillis(p.expiresAt);
    var effects := AllSent(plan, e.entryKey, env, cutoff);
    var o := Executor.OccurrenceOf(e, plan, false);
    PersistKeeps(was, c, o, env.wroteFirst);
    var noted := PersistOccurrence(c, o, env.wroteFirst);
    SentAreRequests(plan, e.entryKey, env, cutoff);
    RequestsKeep(noted.disk, effects);
    DiskAfterAppend(was, noted.trace, effects);
    AlwaysOkAppend(was, noted.trace, effects);
    var sent := noted.(trace := noted.trace + effects);
    PersistKeeps(was, sent, Executor.OccurrenceOf(e, plan, !AnyStopped(plan, env, cutoff)), env.wroteLast);
  }

  lemma BoundaryKeeps(was: Disk, cfg: Config, c: Core, e: Event, env: ObserveEnv)
    requires Tracks(was, c) && CoreOk(c)
    ensures Tracks(was, EntryBoundary(cfg, c, e, env)) && CoreOk(EntryBoundary(cfg, c, e, env))
  {
    hide DeliverMatch, UsableProblem, Resolve, Lost, DiskOk, ParseState, DiskAfter, AlwaysOk;
    var h := HostOf(c, env);
    var r := Resolve(h, e.entryKey, e.at);
    MatchIsTheOnlyEntry(h, e.entryKey, e.at);
    if r.Match? {
      var p := r.program;
      var entered := c.(state := Entered(e.at, e.playlistName, p.packageId, p.revision, p.expiresAt),
                        report := c.report.(due := true));
      if c.state.mode.Normal? {
        DeliveryKeeps(was, entered, e, p, r.entry, env.delivery);
      } else {
        DeliveryKeeps(was, c, e, p, r.entry, env.delivery);
      }
    }
  }

  lemma ResumeKeeps(was: Disk, c: Core, e: Event, recorded: Option<Occurrence>, wrote: bool)
    requires Tracks(was, c) && CoreOk(c)
    ensures Tracks(was, ResumeSaved(c, e, recorded, wrote)) && CoreOk(ResumeSaved(c, e, recorded, wrote))
  {
    hide PersistOccurrence, DiskOk, Resumable, DiskAfter, AlwaysOk;
    if recorded.Some? {
      PersistKeeps(was, c, recorded.value.(delivered := true), wrote);
    }
  }

  lemma DecidedKeeps(c: Core, e: Event, env: ObserveEnv)
    requires CoreOk(c)
    ensures Tracks(c.disk, Decided(c, e, env)) && CoreOk(Decided(c, e, env))
  {
    hide RestAtCutoff, HandBack, ResumeSaved, EndsFallback, DiskOk, Resumable;
    var begun := c.(trace := []);
    assert Tracks(c.disk, begun);
    RestKeeps(c.disk, begun, e.at, env.wroteRest);
    var rested := RestAtCutoff(begun, e.at, env.wroteRest);
    HandBackKeeps(c.disk, rested, e.at, env.urlReadable);
    ResumeKeeps(c.disk, Forgotten(rested.(waiting := rested.waiting.(undecided := false))), e,
                rested.state.occurrence, env.wroteResume);
  }

  lemma ObserveKeeps(cfg: Config, c: Core, e: Event, env: ObserveEnv)
    requires CoreOk(c)
    ensures Tracks(c.disk, Observe(cfg, c, e, env)) && CoreOk(Observe(cfg, c, e, env))
  {
    hide Decided, EntryBoundary, DiskOk, Resumable, DiskAfter, AlwaysOk;
    DecidedKeeps(c, e, env);
    BoundaryKeeps(c.disk, cfg, Seen(Decided(c, e, env), e), e, env);
  }

  lemma RestoredIsOk(d: Disk, now: int, monotonic: int)
    requires DiskOk(d)
    ensures CoreOk(Restored(d, now, monotonic)) && Tracks(d, Restored(d, now, monotonic))
  {
    hide ParseState, CutoffPassed, DiskAfter, AlwaysOk;
    if d.file.Some? {
      LoadedIsNotNormal(d.file.value);
    }
    var c := Restored(d, now, monotonic);
    NothingYetTracks(d);
    if c.trace != [] {
      DidTracks(d, FreshCore(d, now, monotonic), c, Wrote(None));
    }
  }

  lemma NothingYetTracks(d: Disk)
    requires DiskOk(d)
    ensures DiskAfter(d, []) == d && AlwaysOk(d, [])
  {
  }

  lemma LoadedIsNotNormal(text: Bytes)
    ensures ParseState(text).Loaded? ==> !ParseState(text).state.mode.Normal?
  {
    hide Parse, Find, FindText, FindInt, FallbackState.OccurrenceOf;
  }

  lemma StepKeeps(cfg: Config, m: Machine, s: Step)
    requires MachineOk(m) && Possible(m, s)
    ensures MachineOk(Next(cfg, m, s))
  {
    hide Tick, Observe, Restored, CoreOk, DiskAfter, AlwaysOk;
    match s
    case DoStart(now, monotonic) => RestoredIsOk(m.disk, now, monotonic);
    case DoTick(env) => TickKeeps(cfg, m.core, env);
    case DoObserve(e, env) => ObserveKeeps(cfg, m.core, e, env);
    case CrashInTick(env, k) =>
      TickKeeps(cfg, m.core, env);
      AlwaysOkWhenCut(m.core.disk, Tick(cfg, m.core, env).trace, k);
    case CrashInObserve(e, env, k) =>
      ObserveKeeps(cfg, m.core, e, env);
      AlwaysOkWhenCut(m.core.disk, Observe(cfg, m.core, e, env).trace, k);
  }

  /** In every run the state a player holds, and the one a crash would leave to be resumed, were entered with the very
      copy of the program that is installed. */
  lemma {:induction false} RunKeeps(cfg: Config, m: Machine, steps: seq<Step>)
    requires MachineOk(m) && CanRun(cfg, m, steps)
    ensures MachineOk(Run(cfg, m, steps))
    decreases |steps|
  {
    hide MachineOk, Next;
    if steps == [] {
    } else {
      StepKeeps(cfg, m, steps[0]);
      RunKeeps(cfg, Next(cfg, m, steps[0]), steps[1..]);
    }
  }
}
