/** Which callbacks are new occurrences (native/adapters/shared/fallback_executor.h), told from the callbacks and
    hand-backs there were before. */
module ExecutorHistory {
  import opened Basics
  import opened Ordering
  import opened FallbackState
  import opened FallbackProgram
  import opened Executor
  import opened ExecutorSafety
  import opened ExecutorRecord
  import opened ExecutorLimits
  import opened ExecutorOnce
  import opened ExecutorAgain

  /** What the plugin goes through while it runs. */
  datatype Happening = Ticked(tick: TickEnv) | Called(event: Event, env: ObserveEnv)

  function Then(cfg: Config, c: Core, s: Happening): Core {
    match s
    case Ticked(tick) => Tick(cfg, c, tick)
    case Called(e, env) => Observe(cfg, c, e, env)
  }

  /** After the first n of them. */
  function At(cfg: Config, c: Core, run: seq<Happening>, n: nat): Core
    requires n <= |run|
  {
    if n == 0 then c else Then(cfg, At(cfg, c, run, n - 1), run[n - 1])
  }

  /* ---- What a happening means for the entry that plays ---- */

  /** The event says which entry plays. */
  predicate NamesEntry(e: Event) {
    e.action.Start? || e.action.Playing?
  }

  /** FPP stopped the playlist the fallback was entered under, or named another. */
  predicate Leaves(c: Core, e: Event) {
    !c.state.mode.Normal? && (e.action.Stop? || (e.playlistName != [] && e.playlistName != c.state.playlistName))
  }

  /** The first callback after a start with a saved state that names its playlist, for the entry on record. */
  predicate Resumes(c: Core, e: Event) {
    && c.waiting.undecided && e.playlistName != [] && !Leaves(c, e)
    && c.state.occurrence.Some? && c.state.occurrence.value.entryKey == e.entryKey
    && c.state.occurrence.value.identityResolved == e.identityResolved
  }

  /** From this callback on this entry, in this pass, is the one that plays. */
  predicate Begins(c: Core, s: Happening, b: Boundary) {
    && s.Called? && BoundaryOf(s.event) == b
    && (NamesEntry(s.event) || (s.event.action.UnknownAction? && Resumes(c, s.event)))
  }

  /** The entry is over, another plays, or the fallback it was acted on in was handed back. */
  predicate Ends(cfg: Config, c: Core, s: Happening, b: Boundary) {
    match s
    case Ticked(tick) => Settled(cfg, c, tick.monotonic)
    case Called(e, _) =>
      || e.action.Stop? || e.action.QueryNext? || Leaves(c, e)
      || (BoundaryOf(e) != b && (NamesEntry(e) || Resumes(c, e)))
  }

  /** Begun by one of the first n, and not over since. */
  ghost predicate PlayingSince(cfg: Config, c: Core, run: seq<Happening>, n: nat, b: Boundary, k: nat)
    requires n <= |run|
  {
    && k < n && Begins(At(cfg, c, run, k), run[k], b)
    && forall j: nat | k < j < n :: !Ends(cfg, At(cfg, c, run, j), run[j], b)
  }

  ghost predicate Plays(cfg: Config, c: Core, run: seq<Happening>, n: nat, b: Boundary)
    requires n <= |run|
  {
    exists k: nat :: PlayingSince(cfg, c, run, n, b, k)
  }

  /** What the executor keeps of that. */
  predicate Kept(c: Core, b: Boundary) {
    c.sight.last == Some(b) && !c.sight.finished && !c.sight.forget
  }

  lemma TickKeepsSight(cfg: Config, c: Core, tick: TickEnv, b: Boundary)
    ensures Kept(Tick(cfg, c, tick), b) <==> Kept(c, b) && !Settled(cfg, c, tick.monotonic)
  {
    hide ProbePart, RestAtCutoff, HandBack, CoordinatorPart, ProbedNow, CutoffPassed;
    var begun := c.(trace := []);
    var probed := ProbePart(cfg, begun, tick);
    ProbeTouches(cfg, begun, tick);
    RestTouches(probed, tick.now, tick.wroteRest);
    var rested := RestAtCutoff(probed, tick.now, tick.wroteRest);
    HandBackTouches(rested, tick.now, tick.urlLater);
    CoordinatorTouches(SettlePart(cfg, rested, tick), tick, ProbedNow(cfg, c, tick));
  }

  lemma ResumedSight(c: Core, e: Event, recorded: Option<Occurrence>, wrote: bool, b: Boundary)
    requires !c.sight.forget
    ensures var d := ResumeSaved(c, e, recorded, wrote);
            && !d.sight.forget
            && (Kept(d, b) <==>
                if recorded.Some? && recorded.value.entryKey == e.entryKey
                   && recorded.value.identityResolved == e.identityResolved
                then BoundaryOf(e) == b else Kept(c, b))
  {
    hide PersistOccurrence;
    if recorded.Some? {
      PersistTouches(c, recorded.value.(delivered := true), wrote);
    }
  }

  lemma DecidedSight(c: Core, e: Event, env: ObserveEnv, b: Boundary)
    ensures var d := Decided(c, e, env);
            && !d.sight.forget
            && (Kept(d, b) <==>
                if Leaves(c, e) then false else if Resumes(c, e) then BoundaryOf(e) == b else Kept(c, b))
  {
    hide RestAtCutoff, HandBack, ResumeSaved, CutoffPassed;
    var begun := c.(trace := []);
    RestTouches(begun, e.at, env.wroteRest);
    var rested := RestAtCutoff(begun, e.at, env.wroteRest);
    HandBackTouches(rested, e.at, env.urlReadable);
    ResumedSight(Forgotten(rested.(waiting := rested.waiting.(undecided := false))), e, rested.state.occurrence,
                 env.wroteResume, b);
  }

  /** A callback hands back exactly if FPP left what the fallback was entered under. */
  lemma HandsBackIffLeft(c: Core, e: Event, env: ObserveEnv)
    ensures Decided(c, e, env).state.mode.Normal? <==> c.state.mode.Normal? || Leaves(c, e)
  {
    hide RestAtCutoff, HandBack, ResumeSaved, CutoffPassed;
    var begun := c.(trace := []);
    RestTouches(begun, e.at, env.wroteRest);
    var rested := RestAtCutoff(begun, e.at, env.wroteRest);
    HandBackTouches(rested, e.at, env.urlReadable);
    ResumeTouches(Forgotten(rested.(waiting := rested.waiting.(undecided := false))), e, rested.state.occurrence,
                  env.wroteResume);
  }

  lemma BoundaryKeepsSight(cfg: Config, c: Core, e: Event, env: ObserveEnv)
    ensures EntryBoundary(cfg, c, e, env).sight == c.sight
  {
    hide EntryBoundary;
    BoundaryMayEnter(cfg, c, e, env);
  }

  lemma ObserveKeepsSight(cfg: Config, c: Core, e: Event, env: ObserveEnv, b: Boundary)
    ensures Kept(Observe(cfg, c, e, env), b) <==>
            Begins(c, Called(e, env), b) || (Kept(c, b) && !Ends(cfg, c, Called(e, env), b))
  {
    hide Decided, EntryBoundary, Leaves;
    DecidedSight(c, e, env, b);
    DecidedSight(c, e, env, BoundaryOf(e));
    BoundaryKeepsSight(cfg, Seen(Decided(c, e, env), e), e, env);
  }

  lemma ThenKeepsSight(cfg: Config, c: Core, s: Happening, b: Boundary)
    ensures Kept(Then(cfg, c, s), b) <==> Begins(c, s, b) || (Kept(c, b) && !Ends(cfg, c, s, b))
  {
    hide Tick, Observe, Begins, Ends, Kept;
    match s
    case Ticked(tick) =>
      TickKeepsSight(cfg, c, tick, b);
      TickBegins(cfg, c, tick, b);
    case Called(e, env) => ObserveKeepsSight(cfg, c, e, env, b);
  }

  lemma TickBegins(cfg: Config, c: Core, tick: TickEnv, b: Boundary)
    ensures !Begins(c, Ticked(tick), b) && (Ends(cfg, c, Ticked(tick), b) <==> Settled(cfg, c, tick.monotonic))
  {
  }

  /** What is kept is the history: the entry that plays, or whatever was kept before and is not over. */
  lemma {:induction false} KeptIsHistory(cfg: Config, c: Core, run: seq<Happening>, n: nat, b: Boundary)
    requires n <= |run|
    ensures Kept(At(cfg, c, run, n), b) <==>
            || Plays(cfg, c, run, n, b)
            || (Kept(c, b) && forall j: nat | j < n :: !Ends(cfg, At(cfg, c, run, j), run[j], b))
    decreases n
  {
    hide Then, Begins, Ends, Kept, At;
    if n == 0 {
      StartsAt(cfg, c, run);
    } else {
      var m: nat := n - 1;
      KeptIsHistory(cfg, c, run, m, b);
      var before := At(cfg, c, run, m);
      ThenKeepsSight(cfg, before, run[m], b);
      NextIs(cfg, c, run, n);
      if Begins(before, run[m], b) {
        assert PlayingSince(cfg, c, run, n, b, m);
      }
      if !Ends(cfg, before, run[m], b) {
        if k: nat :| PlayingSince(cfg, c, run, m, b, k) {
          assert PlayingSince(cfg, c, run, n, b, k);
        }
      }
      if k: nat :| PlayingSince(cfg, c, run, n, b, k) {
        assert k < m ==> PlayingSince(cfg, c, run, m, b, k) && !Ends(cfg, before, run[m], b);
      }
    }
  }

  lemma StartsAt(cfg: Config, c: Core, run: seq<Happening>)
    ensures At(cfg, c, run, 0) == c
  {
  }

  lemma NextIs(cfg: Config, c: Core, run: seq<Happening>, n: nat)
    requires 0 < n <= |run|
    ensures At(cfg, c, run, n) == Then(cfg, At(cfg, c, run, n - 1), run[n - 1])
  {
  }

  /** After a start, with or without something saved, and any ticks and callbacks: a callback that names an entry is a
      new occurrence exactly if the entry, in that pass, does not play already. It plays if one of the callbacks
      before began it, and since then it was not over, no other was named, and the fallback was not handed back; and
      with this callback if it is the one that resumes a saved state, for the entry on record. */
  lemma NewIff(cfg: Config, d: Disk, now: int, monotonic: int, run: seq<Happening>, e: Event, env: ObserveEnv)
    ensures var start := Restored(d, now, monotonic);
            var c := At(cfg, start, run, |run|);
            ActsOnNew(c, e, env) <==>
            NamesEntry(e) && (Leaves(c, e) || (!Resumes(c, e) && !Plays(cfg, start, run, |run|, BoundaryOf(e))))
  {
    hide Decided, At, Leaves, Resumes, Plays;
    var start := Restored(d, now, monotonic);
    StartKeepsNothing(d, now, monotonic, BoundaryOf(e));
    hide Restored;
    KeptIsHistory(cfg, start, run, |run|, BoundaryOf(e));
    DecidedSight(At(cfg, start, run, |run|), e, env, BoundaryOf(e));
  }

  lemma StartKeepsNothing(d: Disk, now: int, monotonic: int, b: Boundary)
    ensures !Kept(Restored(d, now, monotonic), b)
  {
    hide ParseState, CutoffPassed;
  }

  /** So a callback sends something exactly if, by that history, it is new, and some target is due. */
  lemma SendsIffNew(cfg: Config, d: Disk, now: int, monotonic: int, run: seq<Happening>, e: Event, env: ObserveEnv)
    ensures var start := Restored(d, now, monotonic);
            var c := At(cfg, start, run, |run|);
            SendsSomething(Observe(cfg, c, e, env).trace) <==>
            && NamesEntry(e) && (Leaves(c, e) || (!Resumes(c, e) && !Plays(cfg, start, run, |run|, BoundaryOf(e))))
            && exists i: nat :: Due(cfg, Decided(c, e, env), e, env, i)
  {
    hide Decided, At, Leaves, Resumes, Plays, Observe, Due, Restored, NamesEntry, ActsOnNew;
    var c := At(cfg, Restored(d, now, monotonic), run, |run|);
    NewIff(cfg, d, now, monotonic, run, e, env);
    if ActsOnNew(c, e, env) {
      SendsIffDue(cfg, c, e, env);
    } else if SendsSomething(Observe(cfg, c, e, env).trace) {
      var x :| x in Observe(cfg, c, e, env).trace && ToNode(x);
      SentIsDue(cfg, c, e, env, x);
    }
  }

  /** With nothing saved, nothing ever waits to be resumed. */
  lemma {:induction false} NothingToResume(cfg: Config, c: Core, run: seq<Happening>, n: nat, e: Event)
    requires n <= |run| && !c.waiting.undecided
    ensures !Resumes(At(cfg, c, run, n), e)
    decreases n
  {
    hide Then;
    StaysDecided(cfg, c, run, n);
  }

  lemma {:induction false} StaysDecided(cfg: Config, c: Core, run: seq<Happening>, n: nat)
    requires n <= |run| && !c.waiting.undecided
    ensures !At(cfg, c, run, n).waiting.undecided
    decreases n
  {
    hide Then;
    if n == 0 {
    } else {
      StaysDecided(cfg, c, run, n - 1);
      ThenDecides(cfg, At(cfg, c, run, n - 1), run[n - 1]);
    }
  }

  lemma ThenDecides(cfg: Config, c: Core, s: Happening)
    requires !c.waiting.undecided
    ensures !Then(cfg, c, s).waiting.undecided
  {
    hide Tick, Observe;
    match s
    case Ticked(tick) => TickDecides(cfg, c, tick);
    case Called(e, env) => ObserveDecides(cfg, c, e, env);
  }

  lemma TickDecides(cfg: Config, c: Core, tick: TickEnv)
    requires !c.waiting.undecided
    ensures !Tick(cfg, c, tick).waiting.undecided
  {
    hide ProbePart, RestAtCutoff, HandBack, CoordinatorPart, ProbedNow, CutoffPassed;
    var begun := c.(trace := []);
    var probed := ProbePart(cfg, begun, tick);
    ProbeTouches(cfg, begun, tick);
    RestTouches(probed, tick.now, tick.wroteRest);
    CoordinatorTouches(SettlePart(cfg, RestAtCutoff(probed, tick.now, tick.wroteRest), tick), tick,
                       ProbedNow(cfg, c, tick));
  }

  lemma ObserveDecides(cfg: Config, c: Core, e: Event, env: ObserveEnv)
    requires !c.waiting.undecided
    ensures !Observe(cfg, c, e, env).waiting.undecided
  {
    hide RestAtCutoff, HandBack, PersistOccurrence, CutoffPassed, EntryBoundary;
    var begun := c.(trace := []);
    RestTouches(begun, e.at, env.wroteRest);
    var rested := RestAtCutoff(begun, e.at, env.wroteRest);
    HandBackTouches(rested, e.at, env.urlReadable);
    BoundaryDecides(cfg, Seen(Decided(c, e, env), e), e, env);
  }

  lemma BoundaryDecides(cfg: Config, c: Core, e: Event, env: ObserveEnv)
    ensures EntryBoundary(cfg, c, e, env).waiting == c.waiting
  {
    hide EntryBoundary;
    BoundaryMayEnter(cfg, c, e, env);
  }

  /** After a start with nothing saved the history alone decides. */
  lemma NewWithNothingSavedIff(cfg: Config, d: Disk, now: int, monotonic: int, run: seq<Happening>, e: Event,
                               env: ObserveEnv)
    requires d.file == None
    ensures var start := Restored(d, now, monotonic);
            var c := At(cfg, start, run, |run|);
            ActsOnNew(c, e, env) <==>
            NamesEntry(e) && (Leaves(c, e) || !Plays(cfg, start, run, |run|, BoundaryOf(e)))
  {
    hide At, Plays, Leaves, Resumes, NamesEntry, ActsOnNew;
    NewIff(cfg, d, now, monotonic, run, e, env);
    NothingToResume(cfg, Restored(d, now, monotonic), run, |run|, e);
  }

  /** An entry that FPP reported finished is new when it is named again, in the same pass too, and is sent to every due
      target once more. */
  lemma FinishedEntryIsSentAgain(cfg: Config, c: Core, finish: Event, first: ObserveEnv, e: Event, env: ObserveEnv,
                                 i: nat)
    requires finish.action.QueryNext? && NamesEntry(e)
    ensures var f := Observe(cfg, c, finish, first);
            && (ActsOnNew(f, e, env) <==> !Resumes(f, e))
            && (!Resumes(f, e) && Due(cfg, Decided(f, e, env), e, env, i) ==>
                  DueRequest(Decided(f, e, env), e, env, i) in Observe(cfg, f, e, env).trace)
  {
    hide Decided, Due, Resumes, DueRequest;
    var f := Observe(cfg, c, finish, first);
    hide Observe;
    ObserveKeepsSight(cfg, c, finish, first, BoundaryOf(e));
    DecidedSight(f, e, env, BoundaryOf(e));
    LeavingIsNoResuming(f, e);
    if !Resumes(f, e) && Due(cfg, Decided(f, e, env), e, env, i) {
      DueEntryIsServed(cfg, f, e, env, i);
    }
  }

  lemma LeavingIsNoResuming(c: Core, e: Event)
    ensures Leaves(c, e) ==> !Resumes(c, e)
  {
  }
}
