/** The executor as an object (native/adapters/shared/fallback_executor.h): its fields, changed step by step, and each
    method against the step it carries out. The trace records what the methods wrote and sent. */
module FallbackExecutor {
  import opened Basics
  import opened Ordering
  import opened FallbackState
  import opened FallbackProgram
  import opened Executor
  import OutageDetector
  import NodeDelivery

  class Player {
    const cfg: Config
    var state: State
    var undecided: bool
    var startedAtMonotonic: int
    var detector: OutageDetector.Detector
    var lastProbeSucceeded: bool
    var probedOnce: bool
    var lastProbeAt: int
    var token: Option<Bytes>
    var reportDue: bool
    var nextReportAt: int
    var reportOwed: bool
    var handBackFetchDue: bool
    var handBackAtOnce: bool
    var lastBoundary: Option<Boundary>
    var occurrenceFinished: bool
    var forgetBoundary: bool
    var file: Option<Bytes>
    var program: Option<Program>
    ghost var trace: seq<Effect>

    ghost function View(): Core
      reads this
    {
      Core(state, Waiting(undecided, startedAtMonotonic),
           Link(detector, lastProbeSucceeded, probedOnce, lastProbeAt, token),
           Reporting(reportDue, nextReportAt, reportOwed), FetchDebt(handBackFetchDue, handBackAtOnce),
           Sight(lastBoundary, occurrenceFinished, forgetBoundary), Disk(file, program), trace)
    }

    constructor (cfg: Config, file: Option<Bytes>, program: Option<Program>, now: int, monotonic: int)
      ensures this.cfg == cfg && View() == Restored(Disk(file, program), now, monotonic)
    {
      this.cfg := cfg;
      this.state := NormalSince(now);
      this.undecided, this.startedAtMonotonic := false, monotonic;
      this.detector, this.lastProbeSucceeded, this.probedOnce, this.lastProbeAt, this.token :=
        OutageDetector.FRESH, false, false, 0, None;
      this.reportDue, this.nextReportAt, this.reportOwed := true, 0, false;
      this.handBackFetchDue, this.handBackAtOnce := false, false;
      this.lastBoundary, this.occurrenceFinished, this.forgetBoundary := None, false, false;
      this.file, this.program, this.trace := file, program, [];
      new;
      RestoreSavedState(now);
    }

    /** restoreSavedState. */
    method RestoreSavedState(now: int)
      requires View() == FreshCore(Disk(file, program), now, startedAtMonotonic)
      modifies this
      ensures View() == Restored(Disk(old(file), old(program)), now, old(startedAtMonotonic))
    {
      hide ParseState, CutoffPassed, Render;
      if file.None? {
        return;
      }
      var read := ParseState(file.value);
      match read {
        case NothingSaved =>
        case UnknownVersion =>
          WriteFile(None);
          handBackFetchDue, reportOwed := true, true;
        case Loaded(saved) =>
          if CutoffPassed(saved, now) {
            SaveCurrentState(true);
            handBackFetchDue, reportOwed := true, true;
          } else {
            state, undecided := saved, true;
          }
      }
    }

    method WriteFile(contents: Option<Bytes>)
      modifies this`file, this`trace
      ensures View() == WithFile(old(View()), contents)
    {
      file := contents;
      trace := trace + [Wrote(contents)];
    }

    method SaveCurrentState(wrote: bool)
      modifies this`file, this`trace
      ensures View() == Saved(old(View()), wrote)
    {
      if state.mode.Normal? {
        WriteFile(None);
      } else if wrote {
        WriteFile(Some(Render(state)));
      }
    }

    method EnterRestingAtCutoff(now: int, wrote: bool) returns (moved: bool)
      modifies this
      ensures View() == RestAtCutoff(old(View()), now, wrote)
      ensures moved <==> old(state).mode.Fallback? && CutoffPassed(old(state), now)
    {
      hide CutoffPassed, Saved;
      moved := false;
      if !state.mode.Fallback? || !CutoffPassed(state, now) {
        return;
      }
      state, reportDue := Rested(state, now), true;
      SaveCurrentState(wrote);
      moved := true;
    }

    method SendStateReport(now: int)
      modifies this`reportDue, this`nextReportAt, this`trace
      ensures View() == SendReport(old(View()), now)
    {
      reportDue, nextReportAt := false, now + STATE_REPORT_INTERVAL;
      trace := trace + [Reported(state)];
    }

    /** handBack: nothing in normal; and when it is for FPP staying idle, only once the settle window is over. */
    method HandBackNow(now: int, urlReadable: bool, onlyWhenIdle: bool, monotonic: int) returns (moved: bool)
      modifies this
      ensures moved == (!old(state).mode.Normal? && (!onlyWhenIdle || Settled(cfg, old(View()), monotonic)))
      ensures View() == if moved then HandBack(old(View()), now, urlReadable) else old(View())
    {
      hide Saved, SendReport;
      moved := !state.mode.Normal?;
      if onlyWhenIdle {
        moved := moved && undecided && monotonic - startedAtMonotonic >= cfg.restartSettle;
      }
      if !moved {
        return;
      }
      var reachable := lastProbeSucceeded;
      ReturnToNormal(now, !reachable);
      SaveCurrentState(true);
      if reachable && urlReadable {
        SendStateReport(now);
      }
    }

    method ReturnToNormal(now: int, silent: bool)
      modifies this
      ensures View() == old(View()).(state := NormalSince(now), waiting := old(View()).waiting.(undecided := false),
                                     debt := FetchDebt(true, true),
                                     report := old(View()).report.(due := silent, owed := silent),
                                     sight := old(View()).sight.(forget := true))
    {
      state, undecided, forgetBoundary := NormalSince(now), false, true;
      OweCoordinator(silent);
    }

    method OweCoordinator(silent: bool)
      modifies this`handBackFetchDue, this`handBackAtOnce, this`reportDue, this`reportOwed
      ensures View() == old(View()).(debt := FetchDebt(true, true),
                                     report := old(View()).report.(due := silent, owed := silent))
    {
      handBackFetchDue, handBackAtOnce := true, true;
      reportDue, reportOwed := silent, silent;
    }

    /* ---- The background thread ---- */

    method IsProbeDue(now: int) returns (due: bool)
      ensures due == ProbeDue(cfg, View(), now)
    {
      var interval := cfg.probeInterval;
      if !state.mode.Normal? || OutageDetector.ConfirmedLost(cfg.detector, detector) {
        if LOST_PROBE_INTERVAL_CAP <= interval {
          interval := LOST_PROBE_INTERVAL_CAP;
        }
      }
      due := !(probedOnce && now < lastProbeAt + interval && now >= lastProbeAt);
    }

    method ProbeNow(reached: bool, now: int)
      modifies this
      ensures View() == Probed(cfg, old(View()), reached, now)
    {
      detector := OutageDetector.Recorded(detector, OutageDetector.Probe(reached, now));
      if reached && !lastProbeSucceeded {
        reportDue := true;
      }
      if OutageDetector.ConfirmedLost(cfg.detector, detector) {
        reportOwed := true;
      }
      lastProbeSucceeded := reached;
    }

    method MaybeProbe(env: TickEnv) returns (probedNow: bool)
      modifies this
      ensures View() == ProbePart(cfg, old(View()), env)
      ensures probedNow == ProbedNow(cfg, old(View()), env)
    {
      hide ProbeDue;
      probedNow := false;
      var due := IsProbeDue(env.now);
      if !due {
        return;
      }
      lastProbeAt, probedOnce := env.now, true;
      if env.token != token {
        token, reportDue := env.token, true;
      }
      if env.urlAtProbe {
        ProbeNow(env.reached, env.now);
        probedNow := true;
      }
    }

    /** The report first, and a fetch only in normal. */
    method TalkToCoordinator(env: TickEnv, probedNow: bool)
      modifies this
      ensures View() == CoordinatorPart(old(View()), env, probedNow)
    {
      hide SendReport;
      var due := token.Some? && (reportDue || env.now >= nextReportAt
                                 || nextReportAt - env.now > STATE_REPORT_INTERVAL);
      if !lastProbeSucceeded || env.stopBeforeReport {
        return;
      }
      var urlKnown := probedNow;
      if !urlKnown && (due || (handBackFetchDue && state.mode.Normal?)) {
        urlKnown := env.urlLater;
      }
      if !urlKnown {
        return;
      }
      if due {
        SendStateReport(env.now);
      }
      reportOwed := false;
      FetchWhenNormal(env, probedNow);
    }

    method FetchWhenNormal(env: TickEnv, probedNow: bool)
      modifies this
      ensures View() == FetchPart(old(View()), env, probedNow)
    {
      var atOnce := handBackFetchDue && handBackAtOnce;
      if handBackFetchDue {
        handBackAtOnce := false;
      }
      if !state.mode.Normal? || env.stopBeforeFetch || !(probedNow || atOnce) {
        return;
      }
      if env.fetched.Some? {
        program := env.fetched;
        trace := trace + [Installed(env.fetched.value)];
      }
      if env.fetchReached {
        handBackFetchDue := false;
      }
    }

    /** tick. */
    method RunTick(env: TickEnv)
      modifies this
      ensures View() == Tick(cfg, old(View()), env)
    {
      hide ProbePart, RestAtCutoff, HandBack, CoordinatorPart, ProbedNow, ProbeDue;
      trace := [];
      ghost var begun := View();
      assert begun == old(View()).(trace := []);
      assert ProbedNow(cfg, begun, env) == ProbedNow(cfg, old(View()), env) by {
        ProbedNowIgnoresTrace(cfg, old(View()), env);
      }
      var probedNow := MaybeProbe(env);
      var _ := EnterRestingAtCutoff(env.now, env.wroteRest);
      var _ := HandBackNow(env.now, env.urlLater, true, env.monotonic);
      TalkToCoordinator(env, probedNow);
    }

    /* ---- The callback thread ---- */

    method RecordOccurrence(o: Occurrence, wrote: bool)
      modifies this
      ensures View() == PersistOccurrence(old(View()), o, wrote)
    {
      hide Saved;
      if !state.mode.Fallback? {
        return;
      }
      state := state.(occurrence := Some(o));
      SaveCurrentState(wrote);
    }

    method ResumeSavedState(e: Event, recorded: Option<Occurrence>, wrote: bool)
      modifies this
      ensures View() == ResumeSaved(old(View()), e, recorded, wrote)
    {
      hide PersistOccurrence;
      if recorded.None? {
        return;
      }
      var o := recorded.value;
      if !o.delivered {
        RecordOccurrence(o.(delivered := true), wrote);
      }
      if e.identityResolved == o.identityResolved && e.entryKey == o.entryKey {
        lastBoundary, occurrenceFinished := Some(BoundaryOf(e)), false;
      }
    }

    /** isNewOccurrence. */
    method IsNewOccurrence(e: Event) returns (isNew: bool)
      modifies this
      ensures isNew == !SameOccurrence(old(View()), e)
      ensures View() == if isNew then Seen(old(View()), e) else old(View())
    {
      isNew := !(lastBoundary == Some(BoundaryOf(e)) && !occurrenceFinished);
      if isNew {
        lastBoundary, occurrenceFinished := Some(BoundaryOf(e)), false;
      }
    }

    /** The first loop of deliverMatch: a request for each target, or why there is none. */
    static method PlanDeliveries(p: Program, targets: seq<Target>, env: DeliveryEnv)
      returns (plan: seq<Planned>, firstProblem: Problem)
      ensures plan == Plan(p, targets, env, 0) && firstProblem == FirstProblem(p, targets, env, 0)
    {
      hide TargetProblem;
      plan, firstProblem := [], NoProblem;
      for i := 0 to |targets|
        invariant Plan(p, targets, env, 0) == plan + Plan(p, targets, env, i)
        invariant FirstProblem(p, targets, env, 0) ==
                  if firstProblem.NoProblem? then FirstProblem(p, targets, env, i) else firstProblem
      {
        var problem := TargetProblem(p, targets[i], env, i);
        if !problem.NoProblem? {
          if firstProblem.NoProblem? {
            firstProblem := problem;
          }
        } else {
          IdIsThere(p, targets[i], env, i);
          var planned := Planned(i, targets[i].nodeId, env.ids(i).value);
          assert plan + ([planned] + Plan(p, targets, env, i + 1)) == plan + [planned] + Plan(p, targets, env, i + 1);
          plan := plan + [planned];
        }
      }
      assert plan + [] == plan;
    }

    /** The second: every delivery run to its end. */
    method SendAll(plan: seq<Planned>, key: Bytes, env: DeliveryEnv, cutoff: int) returns (started: nat, stopped: bool)
      modifies this`trace
      ensures View() == old(View()).(trace := old(trace) + AllSent(plan, key, env, cutoff))
      ensures started == StartedCount(plan, env, cutoff) && stopped == AnyStopped(plan, env, cutoff)
    {
      hide EffectsOf, NodeDelivery.Deliver, NodeDelivery.Posts, NodeDelivery.Hands, NodeDelivery.Permitted,
           NodeDelivery.LastGrants;
      started, stopped := 0, false;
      assert plan[0..] == plan;
      for i := 0 to |plan|
        invariant old(trace) + AllSent(plan, key, env, cutoff) == trace + AllSent(plan[i..], key, env, cutoff)
        invariant StartedCount(plan, env, cutoff) == started + StartedCount(plan[i..], env, cutoff)
        invariant AnyStopped(plan, env, cutoff) == (stopped || AnyStopped(plan[i..], env, cutoff))
        invariant View() == old(View()).(trace := trace)
      {
        var d := plan[i];
        assert plan[i..][1..] == plan[i + 1..];
        var result, requests := NodeDelivery.DeliverActivation(env.worlds(d.index), env.bodies(d.index), cutoff);
        if result.outcome == NodeDelivery.AUTHORIZED {
          started := started + 1;
        }
        if result.outcome == NodeDelivery.STOPPED {
          stopped := true;
        }
        ghost var effects, later := EffectsOf(d, key, requests), AllSent(plan[i + 1..], key, env, cutoff);
        assert trace + (effects + later) == trace + effects + later;
        trace := trace + effects;
      }
      assert trace + [] == trace;
    }

    /** deliverMatch. */
    method Deliver(e: Event, p: Program, entry: Entry, env: DeliveryEnv)
      modifies this
      ensures View() == DeliverMatch(old(View()), e, p, entry, env)
    {
      hide PersistOccurrence, AllSent, StartedCount, AnyStopped, Plan, FirstProblem;
      var plan, firstProblem := PlanDeliveries(p, entry.targets, env);
      RecordOccurrence(Executor.OccurrenceOf(e, plan, false), env.wroteFirst);
      var started, stopped := SendAll(plan, e.entryKey, env, CutoffMillis(p.expiresAt));
      RecordOccurrence(Executor.OccurrenceOf(e, plan, !stopped), env.wroteLast);
      state := state.(lastBoundary := if started == |entry.targets| then Started
                                      else if started > 0 then StartedOnSomeNodes else NotStarted,
                      lastProblem := if plan == [] then firstProblem else NoProblem);
    }

    /** onEntryBoundary. */
    method OnEntryBoundary(e: Event, env: ObserveEnv)
      modifies this
      ensures View() == EntryBoundary(cfg, old(View()), e, env)
    {
      hide DeliverMatch, UsableProblem, Resolve;
      var h := Host(env.pinnedKey, env.playerKey, program, env.verifies);
      var problem := UsableProblem(h, e.at);
      var resolution := ResolveActivation(h, e.entryKey, e.at);
      if state.mode.Resting? {
        problem := AtRest;
      } else if problem.NoProblem? && !e.identityResolved {
        problem := EntryNotIdentified;
      } else if problem.NoProblem? {
        problem := ProblemOf(resolution);
      }
      if state.mode.Normal? && !OutageDetector.ConfirmedLost(cfg.detector, detector) {
        return;
      }
      if !problem.NoProblem? {
        var nothingMapped := problem.EntryUnknown?;
        state := state.(lastBoundary := if nothingMapped then NothingToStart else NotStarted,
                        lastProblem := if nothingMapped then NoProblem else problem);
        return;
      }
      if !resolution.Match? {
        return;
      }
      var p := resolution.program;
      if state.mode.Normal? {
        state := Entered(e.at, e.playlistName, p.packageId, p.revision, p.expiresAt);
        reportDue := true;
      }
      Deliver(e, p, resolution.entry, env.delivery);
    }

    /** The first half of observeEntryEvent: the cutoff, the end of a fallback, and a saved state. */
    method Decide(e: Event, env: ObserveEnv) returns (endedFallback: bool)
      modifies this
      ensures View() == Decided(old(View()), e, env)
      ensures endedFallback == EndsFallback(RestAtCutoff(old(View()).(trace := []), e.at, env.wroteRest), e)
    {
      hide RestAtCutoff, HandBack, ResumeSaved, EndsFallback;
      trace := [];
      assert View() == old(View()).(trace := []);
      var _ := EnterRestingAtCutoff(e.at, env.wroteRest);
      var interrupted := state.occurrence;
      var resumed;
      endedFallback, resumed := EndOrResume(e, env);
      ForgetIfAsked();
      if resumed {
        ResumeSavedState(e, interrupted, env.wroteResume);
      }
    }

    method EndOrResume(e: Event, env: ObserveEnv) returns (ended: bool, resumed: bool)
      modifies this
      ensures ended == EndsFallback(old(View()), e)
      ensures resumed == (old(undecided) && !ended && e.playlistName != [])
      ensures View() == if ended then HandBack(old(View()), e.at, env.urlReadable)
                        else if resumed then old(View()).(waiting := old(View()).waiting.(undecided := false))
                          else old(View())
    {
      hide HandBack;
      ended := !state.mode.Normal? && (e.action.Stop?
                                       || (e.playlistName != [] && e.playlistName != state.playlistName));
      resumed := undecided && !ended && e.playlistName != [];
      if resumed {
        undecided := false;
      }
      if ended {
        var _ := HandBackNow(e.at, env.urlReadable, false, 0);
      }
    }

    method ForgetIfAsked()
      modifies this
      ensures View() == Forgotten(old(View()))
    {
      if forgetBoundary {
        forgetBoundary, lastBoundary, occurrenceFinished := false, None, false;
      }
    }

    /** observeEntryEvent: true when the caller must skip its own posts. */
    method ObserveEntryEvent(e: Event, env: ObserveEnv) returns (suspended: bool)
      modifies this
      ensures View() == Observe(cfg, old(View()), e, env)
      ensures suspended == SkipsPosts(cfg, old(View()), e, env)
    {
      hide Decided, EntryBoundary, EndsFallback, RestAtCutoff;
      var endedFallback := Decide(e, env);
      match e.action {
        case Stop =>
          lastBoundary := None;
        case QueryNext =>
          occurrenceFinished := true;
        case UnknownAction =>
        case _ =>
          var isNew := IsNewOccurrence(e);
          if isNew {
            OnEntryBoundary(e, env);
          }
      }
      suspended := (endedFallback && e.action.Stop?)
                   || !state.mode.Normal? || OutageDetector.ConfirmedLost(cfg.detector, detector) || reportOwed;
    }
  }

  lemma ProbedNowIgnoresTrace(cfg: Config, c: Core, env: TickEnv)
    ensures ProbedNow(cfg, c.(trace := []), env) == ProbedNow(cfg, c, env)
  {
  }

  lemma IdIsThere(p: Program, t: Target, env: DeliveryEnv, i: nat)
    requires TargetProblem(p, t, env, i).NoProblem?
    ensures env.ids(i).Some?
  {
  }
}
