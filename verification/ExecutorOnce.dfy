/** An entry is acted on at most once, across crashes and restarts (native/adapters/shared/fallback_executor.h): until
    FPP moves on, or the plugin hands back, nothing more is sent for it. */
module ExecutorOnce {
  import opened Basics
  import opened Ordering
  import opened Utf8
  import opened Json
  import opened JsonAccepted
  import opened FallbackState
  import opened FallbackProgram
  import opened SavedState
  import opened Executor
  import opened ExecutorSafety
  import opened ExecutorRecord
  import opened ExecutorRun
  import opened ExecutorLimits
  import NodeDelivery

  /* ---- What the disk remembers ---- */

  ghost predicate IsFor(o: Option<Occurrence>, key: Bytes) {
    o.Some? && o.value.identityResolved && o.value.entryKey == key
  }

  /** A start from here finds the occurrence for this key. */
  ghost predicate SavedFor(d: Disk, key: Bytes) {
    Resumable(d) && IsFor(ParseState(d.file.value).state.occurrence, key)
  }

  /** The ids are among those on disk. */
  ghost predicate SavedIds(d: Disk, ids: seq<NodeId>) {
    && Resumable(d) && ParseState(d.file.value).state.occurrence.Some?
    && forall id :: id in ids ==> id in ParseState(d.file.value).state.occurrence.value.executionIds
  }

  lemma WrittenIsSaved(d: Disk, s: State)
    requires d.file == Some(Render(s)) && !s.mode.Normal? && Restorable(s) && s.occurrence.Some?
    ensures Resumable(d) && SavedIds(d, s.occurrence.value.executionIds)
    ensures forall key :: IsFor(s.occurrence, key) ==> SavedFor(d, key)
  {
    hide Render, ParseState, IdsInOrder, Restorable;
    SavedStateComesBack(s);
    IdsComeBack(s.occurrence.value.executionIds);
  }

  /* ---- A state read from disk could be written again ---- */

  lemma {:induction false} FoundIsMember(members: seq<Member>, name: Bytes)
    ensures Find(members, name).Some? ==>
            exists m :: m in members && m.name == name && m.value == Find(members, name).value
    decreases |members|
  {
    if members == [] {
    } else {
      if members[0].name == name {
        assert members[0] in members;
      } else {
        FoundIsMember(members[1..], name);
      }
    }
  }

  lemma FoundTextIsValid(members: seq<Member>, name: Bytes, depth: nat)
    requires WellFormed(Object(members), depth)
    ensures FindText(members, name).Some? ==> ValidUtf8(FindText(members, name).value)
  {
    hide Find, ValidUtf8;
    FoundIsMember(members, name);
    if FindText(members, name).Some? {
      var m :| m in members && m.name == name && m.value == Find(members, name).value;
      assert WellFormed(m.value, depth + 1);
    }
  }

  lemma FoundObjectIsWellFormed(members: seq<Member>, name: Bytes, depth: nat)
    requires WellFormed(Object(members), depth)
    ensures Find(members, name).Some? ==> WellFormed(Find(members, name).value, depth + 1)
  {
    hide Find, ValidUtf8;
    FoundIsMember(members, name);
  }

  lemma {:induction false} IdsOfAre(members: seq<Member>)
    requires IdsOf(members).Some?
    ensures |IdsOf(members).value| == |members|
    ensures forall i :: 0 <= i < |members| ==>
            members[i] == Member(IdsOf(members).value[i].node, String(IdsOf(members).value[i].executionId))
    decreases |members|
  {
    if members == [] {
    } else {
      IdsOfAre(members[1..]);
    }
  }

  lemma ReadIdsAreValid(members: seq<Member>, depth: nat)
    requires WellFormed(Object(members), depth) && IdsOf(members).Some?
    ensures DistinctNodes(IdsOf(members).value) && ValidIds(IdsOf(members).value)
  {
    IdsOfAre(members);
    var ids := IdsOf(members).value;
    hide IdsOf, ValidUtf8;
    forall id | id in ids
      ensures ValidUtf8(id.node) && ValidUtf8(id.executionId)
    {
      var i :| 0 <= i < |ids| && ids[i] == id;
      assert members[i] in members;
      assert WellFormed(members[i].value, depth + 1);
    }
    forall i, j | 0 <= i < j < |ids|
      ensures ids[i].node != ids[j].node
    {
      assert members[i].name != members[j].name;
    }
  }

  lemma ReadOccurrenceIsRestorable(members: seq<Member>, depth: nat)
    requires WellFormed(Object(members), depth) && FallbackState.OccurrenceOf(members).Some?
    ensures var o := FallbackState.OccurrenceOf(members).value; o.Some? ==> RestorableOccurrence(o.value)
  {
    FoundObjectIsWellFormed(members, OCCURRENCE, depth);
    hide ValidUtf8, Find, FindBool, FindInt, IdsOf, FindText;
    var found := Find(members, OCCURRENCE);
    if found.Some? && found.value.Object? {
      var inner := found.value.members;
      FoundTextIsValid(inner, ENTRY_KEY, depth + 1);
      FoundObjectIsWellFormed(inner, EXECUTION_IDS, depth + 1);
      var ids := Find(inner, EXECUTION_IDS);
      if ids.Some? && ids.value.Object? && IdsOf(ids.value.members).Some? {
        ReadIdsAreValid(ids.value.members, depth + 2);
      }
    }
  }

  lemma LoadedIsRestorable(text: Bytes)
    requires ParseState(text).Loaded?
    ensures Restorable(ParseState(text).state)
  {
    AcceptedIsWellFormed(text);
    var members := Parse(text).value.members;
    hide Parse, Find, FindInt, FindText, FallbackState.OccurrenceOf, ValidUtf8, WellFormed, RestorableOccurrence;
    FoundTextIsValid(members, PLAYLIST_NAME, 0);
    FoundTextIsValid(members, PACKAGE_ID, 0);
    FoundTextIsValid(members, PACKAGE_REVISION, 0);
    FoundTextIsValid(members, CUTOFF_AT, 0);
    ReadOccurrenceIsRestorable(members, 0);
  }

  /* ---- An entry that has been acted on ---- */

  /** Whatever crashes now, this entry is not new when it is named again. */
  ghost predicate Spent(m: Machine, key: Bytes) {
    match m
    case Down(disk) => SavedFor(disk, key)
    case Up(c) =>
      && !c.state.mode.Normal? && Restorable(c.state) && IsFor(c.state.occurrence, key) && SavedFor(c.disk, key)
      && !c.sight.forget
      && (c.waiting.undecided || (c.sight.last.Some? && c.sight.last.value.identityResolved
                                  && c.sight.last.value.entryKey == key && !c.sight.finished))
  }

  /** FPP has not moved on: it names neither an end, nor another playlist, nor another entry or pass. A plugin that
      has yet to be told what is playing is told of this entry first. */
  ghost predicate StillThere(c: Core, e: Event, key: Bytes) {
    && !e.action.Stop? && !e.action.QueryNext?
    && (e.playlistName == [] || e.playlistName == c.state.playlistName)
    && (e.action.Start? || e.action.Playing? || (c.waiting.undecided && e.playlistName != []) ==>
          && e.identityResolved && e.entryKey == key && e.playlistName != []
          && (!c.waiting.undecided && c.sight.last.Some? ==> e.playlistLoop == c.sight.last.value.playlistLoop))
  }

  ghost predicate QuietStep(m: Machine, s: Step, key: Bytes) {
    match s
    case DoObserve(e, _) => m.Up? && StillThere(m.core, e, key)
    case CrashInObserve(e, _, _) => m.Up? && StillThere(m.core, e, key)
    case _ => true
  }

  /** The two hand-backs that FPP has no part in: the settle window is over, or the cutoff passed while the plugin was
      down. */
  ghost predicate HandsBack(cfg: Config, m: Machine, s: Step)
    requires Possible(m, s)
  {
    match s
    case DoTick(env) => Settled(cfg, m.core, env.monotonic)
    case CrashInTick(env, _) => Settled(cfg, m.core, env.monotonic)
    case DoStart(now, _) => Resumable(m.disk) && CutoffPassed(ParseState(m.disk.file.value).state, now)
    case _ => false
  }

  /** A run in which FPP stays with the entry and the plugin does not hand back, whatever else happens. */
  ghost predicate QuietRun(cfg: Config, m: Machine, steps: seq<Step>, key: Bytes)
    requires CanRun(cfg, m, steps)
    decreases |steps|
  {
    steps == [] ||
    (QuietStep(m, steps[0], key) && !HandsBack(cfg, m, steps[0])
     && QuietRun(cfg, Next(cfg, m, steps[0]), steps[1..], key))
  }

  function EffectsOfRun(cfg: Config, m: Machine, steps: seq<Step>): seq<Effect>
    requires CanRun(cfg, m, steps)
    decreases |steps|
  {
    if steps == [] then []
    else EffectsOfStep(cfg, m, steps[0]) + EffectsOfRun(cfg, Next(cfg, m, steps[0]), steps[1..])
  }

  /* ---- Every cut of a quiet step leaves it saved ---- */

  ghost predicate AlwaysSaved(d: Disk, effects: seq<Effect>, key: Bytes)
    decreases |effects|
  {
    SavedFor(d, key) && (effects == [] || AlwaysSaved(DiskAfterOne(d, effects[0]), effects[1..], key))
  }

  lemma {:induction false} SavedWhenCut(d: Disk, effects: seq<Effect>, key: Bytes, k: nat)
    requires AlwaysSaved(d, effects, key)
    ensures SavedFor(DiskAfter(d, Cut(effects, k)), key)
    decreases |effects|
  {
    hide SavedFor;
    if k > 0 && effects != [] {
      SavedWhenCut(DiskAfterOne(d, effects[0]), effects[1..], key, k - 1);
      assert Cut(effects, k)[1..] == Cut(effects[1..], k - 1);
    }
  }

  lemma {:induction false} SavedAppend(d: Disk, a: seq<Effect>, b: seq<Effect>, key: Bytes)
    requires AlwaysSaved(d, a, key) && AlwaysSaved(DiskAfter(d, a), b, key)
    ensures AlwaysSaved(d, a + b, key)
    decreases |a|
  {
    hide SavedFor;
    if a == [] {
      assert a + b == b;
    } else {
      SavedAppend(DiskAfterOne(d, a[0]), a[1..], b, key);
      assert (a + b)[1..] == a[1..] + b;
    }
  }

  ghost predicate Keeps(was: Disk, c: Core, key: Bytes) {
    DiskAfter(was, c.trace) == c.disk && AlwaysSaved(was, c.trace, key) && SavedFor(c.disk, key)
  }

  lemma DidKeeps(was: Disk, c: Core, d: Core, e: Effect, key: Bytes)
    requires Keeps(was, c, key) && d.trace == c.trace + [e] && d.disk == DiskAfterOne(c.disk, e)
             && SavedFor(d.disk, key)
    ensures Keeps(was, d, key)
  {
    hide SavedFor, DiskAfterOne;
    assert [e][1..] == [];
    DiskAfterAppend(was, c.trace, [e]);
    SavedAppend(was, c.trace, [e], key);
  }

  lemma SavedStays(was: Disk, c: Core, wrote: bool, key: Bytes)
    requires Keeps(was, c, key) && !c.state.mode.Normal? && Restorable(c.state) && IsFor(c.state.occurrence, key)
    ensures Keeps(was, Saved(c, wrote), key)
  {
    hide Render, ParseState, Restorable, DiskAfter, AlwaysSaved;
    if wrote {
      var d := Saved(c, wrote);
      WrittenIsSaved(d.disk, c.state);
      hide SavedFor;
      DidKeeps(was, c, d, Wrote(Some(Render(c.state))), key);
    }
  }

  lemma RestStays(was: Disk, c: Core, now: int, wrote: bool, key: Bytes)
    requires Keeps(was, c, key) && !c.state.mode.Normal? && Restorable(c.state) && IsFor(c.state.occurrence, key)
    ensures var d := RestAtCutoff(c, now, wrote);
            Keeps(was, d, key) && !d.state.mode.Normal? && Restorable(d.state) && IsFor(d.state.occurrence, key)
  {
    hide CutoffPassed, Saved, ValidUtf8, Keeps;
    var d := c.(state := Rested(c.state, now), report := c.report.(due := true));
    SavedTouches(d, wrote);
    if RestAtCutoff(c, now, wrote) != c {
      KeepsLooksAtDiskAndTrace(was, c, d, key);
      SavedStays(was, d, wrote, key);
    }
  }

  lemma KeepsLooksAtDiskAndTrace(was: Disk, c: Core, d: Core, key: Bytes)
    requires Keeps(was, c, key) && d.trace == c.trace && d.disk == c.disk
    ensures Keeps(was, d, key)
  {
  }

  /* ---- Quiet steps ---- */

  lemma QuietTick(cfg: Config, c: Core, env: TickEnv, key: Bytes)
    requires Spent(Up(c), key) && !Tick(cfg, c, env).state.mode.Normal?
    ensures Spent(Up(Tick(cfg, c, env)), key) && Keeps(c.disk, Tick(cfg, c, env), key)
  {
    OnlyTheClocksChangeTheMode(cfg, c, env);
    hide ProbePart, RestAtCutoff, HandBack, CoordinatorPart, ProbedNow, CutoffPassed, SavedFor, Restorable;
    var begun := c.(trace := []);
    assert Keeps(c.disk, begun, key);
    var probed := ProbePart(cfg, begun, env);
    ProbeTouches(cfg, begun, env);
    RestStays(c.disk, probed, env.now, env.wroteRest, key);
    RestTouches(probed, env.now, env.wroteRest);
    var rested := RestAtCutoff(probed, env.now, env.wroteRest);
    assert !Settled(cfg, rested, env.monotonic);
    CoordinatorTouches(rested, env, ProbedNow(cfg, c, env));
    CoordinatorStays(c.disk, rested, env, ProbedNow(cfg, c, env), key);
  }

  lemma CoordinatorStays(was: Disk, c: Core, env: TickEnv, probedNow: bool, key: Bytes)
    requires Keeps(was, c, key) && !c.state.mode.Normal?
    ensures Keeps(was, CoordinatorPart(c, env, probedNow), key)
  {
    hide ReportIsDue, SavedFor, DiskAfter, AlwaysSaved;
    var d := CoordinatorPart(c, env, probedNow);
    if d.trace != c.trace {
      DidKeeps(was, c, d, Reported(c.state), key);
    }
  }

  /** A settle hand-back on the way is the only thing that could break the record before a crash. */
  lemma TickCutIsSaved(cfg: Config, c: Core, env: TickEnv, key: Bytes, k: nat)
    requires Spent(Up(c), key) && !Tick(cfg, c, env).state.mode.Normal?
    ensures SavedFor(DiskAfter(c.disk, Cut(Tick(cfg, c, env).trace, k)), key)
  {
    hide Tick, SavedFor;
    QuietTick(cfg, c, env, key);
    SavedWhenCut(c.disk, Tick(cfg, c, env).trace, key, k);
  }

  lemma ResumeStays(was: Disk, c: Core, e: Event, wrote: bool, key: Bytes)
    requires Keeps(was, c, key) && !c.state.mode.Normal? && Restorable(c.state) && IsFor(c.state.occurrence, key)
    requires e.identityResolved && e.entryKey == key
    ensures var d := ResumeSaved(c, e, c.state.occurrence, wrote);
            && Keeps(was, d, key) && !d.state.mode.Normal? && Restorable(d.state) && IsFor(d.state.occurrence, key)
            && d.sight == Sight(Some(BoundaryOf(e)), false, c.sight.forget) && d.waiting == c.waiting
            && (NoneToNode(c) ==> NoneToNode(d))
  {
    hide Saved, ValidUtf8, SavedFor, DiskAfter, AlwaysSaved;
    var o := c.state.occurrence.value;
    if !o.delivered {
      var closed := o.(delivered := true);
      var d := c.(state := c.state.(occurrence := Some(closed)));
      if c.state.mode.Fallback? {
        SavedStays(was, d, wrote, key);
        SavedTouches(d, wrote);
      }
      PersistAdds(c, closed, wrote);
    }
  }

  lemma QuietDecision(c: Core, e: Event, env: ObserveEnv, key: Bytes)
    requires Spent(Up(c), key) && StillThere(c, e, key)
    ensures var d := Decided(c, e, env);
            && Spent(Up(d), key) && Keeps(c.disk, d, key) && NoneToNode(d)
            && (e.action.Start? || e.action.Playing? ==> SameOccurrence(d, e))
  {
    hide RestAtCutoff, HandBack, ResumeSaved, CutoffPassed, SavedFor, Restorable;
    var begun := c.(trace := []);
    assert Keeps(c.disk, begun, key);
    RestStays(c.disk, begun, e.at, env.wroteRest, key);
    RestTouches(begun, e.at, env.wroteRest);
    RestAdds(begun, e.at, env.wroteRest);
    var rested := RestAtCutoff(begun, e.at, env.wroteRest);
    assert !EndsFallback(rested, e);
    if rested.waiting.undecided && e.playlistName != [] {
      var back := rested.(waiting := rested.waiting.(undecided := false));
      KeepsLooksAtDiskAndTrace(c.disk, rested, back, key);
      ResumeStays(c.disk, back, e, env.wroteResume, key);
    }
  }

  lemma QuietObserve(cfg: Config, c: Core, e: Event, env: ObserveEnv, key: Bytes)
    requires Spent(Up(c), key) && StillThere(c, e, key)
    ensures Spent(Up(Observe(cfg, c, e, env)), key) && Keeps(c.disk, Observe(cfg, c, e, env), key)
    ensures NoneToNode(Observe(cfg, c, e, env))
  {
    hide Decided, EntryBoundary, Spent, Keeps, NoneToNode;
    QuietDecision(c, e, env, key);
  }

  lemma QuietStart(d: Disk, now: int, monotonic: int, key: Bytes)
    requires SavedFor(d, key) && !Restored(d, now, monotonic).state.mode.Normal?
    ensures Spent(Up(Restored(d, now, monotonic)), key) && Restored(d, now, monotonic).trace == []
  {
    LoadedIsRestorable(d.file.value);
    hide ParseState, CutoffPassed, Restorable, Render;
  }

  /** From a machine that has acted on the entry, with FPP still there, those are the steps that end in normal. */
  lemma HandsBackIff(cfg: Config, m: Machine, s: Step, key: Bytes)
    requires Spent(m, key) && Possible(m, s) && QuietStep(m, s, key)
    ensures Full(cfg, m, s).state.mode.Normal? <==> HandsBack(cfg, m, s)
  {
    hide Tick, Observe, CutoffPassed, Restorable, Render;
    match s
    case DoStart(_, _) =>
      hide ParseState;
    case DoTick(env) =>
      OnlyTheClocksChangeTheMode(cfg, m.core, env);
    case CrashInTick(env, _) =>
      OnlyTheClocksChangeTheMode(cfg, m.core, env);
    case DoObserve(e, env) =>
      hide SavedFor;
      QuietObserve(cfg, m.core, e, env, key);
    case CrashInObserve(e, env, _) =>
      hide SavedFor;
      QuietObserve(cfg, m.core, e, env, key);
  }

  lemma QuietStepKeeps(cfg: Config, m: Machine, s: Step, key: Bytes)
    requires Spent(m, key) && Possible(m, s) && QuietStep(m, s, key) && !HandsBack(cfg, m, s)
    ensures Spent(Next(cfg, m, s), key)
    ensures forall x :: x in EffectsOfStep(cfg, m, s) ==> !ToNode(x)
  {
    HandsBackIff(cfg, m, s, key);
    hide Tick, Observe, Restored, SavedFor, Restorable, DiskAfter, AlwaysSaved, HandsBack;
    match s
    case DoStart(now, monotonic) =>
      QuietStart(m.disk, now, monotonic, key);
    case DoTick(env) =>
      QuietTick(cfg, m.core, env, key);
      TickSendsNothing(cfg, m.core, env);
    case CrashInTick(env, k) =>
      TickCutIsSaved(cfg, m.core, env, key, k);
      TickSendsNothing(cfg, m.core, env);
      CutIsPart(Tick(cfg, m.core, env).trace, k);
    case DoObserve(e, env) =>
      QuietObserve(cfg, m.core, e, env, key);
    case CrashInObserve(e, env, k) =>
      QuietObserve(cfg, m.core, e, env, key);
      SavedWhenCut(m.core.disk, Observe(cfg, m.core, e, env).trace, key, k);
      CutIsPart(Observe(cfg, m.core, e, env).trace, k);
  }

  /** While FPP stays with an entry that was acted on and the plugin does not hand back, nothing more goes to any node,
      through ticks, callbacks, crashes at any point and restarts. */
  lemma {:induction false} QuietRunSendsNothing(cfg: Config, m: Machine, steps: seq<Step>, key: Bytes)
    requires Spent(m, key) && CanRun(cfg, m, steps) && QuietRun(cfg, m, steps, key)
    ensures Spent(Run(cfg, m, steps), key)
    ensures forall x :: x in EffectsOfRun(cfg, m, steps) ==> !ToNode(x)
    decreases |steps|
  {
    hide Spent, Next, EffectsOfStep, QuietStep, HandsBack;
    if steps == [] {
    } else {
      QuietStepKeeps(cfg, m, steps[0], key);
      QuietRunSendsNothing(cfg, Next(cfg, m, steps[0]), steps[1..], key);
    }
  }

  /* ---- An entry that is acted on is on disk before its first request ---- */

  /** The delivery's trace: what came before, the record, the requests, and perhaps the record again. */
  lemma DeliveryTrace(c: Core, e: Event, p: Program, entry: Entry, env: DeliveryEnv)
    requires c.state.mode.Fallback? && env.wroteFirst
    ensures var plan, cutoff := Plan(p, entry.targets, env, 0), CutoffMillis(p.expiresAt);
            var first := c.state.(occurrence := Some(Executor.OccurrenceOf(e, plan, false)));
            var last := c.state.(occurrence := Some(Executor.OccurrenceOf(e, plan, !AnyStopped(plan, env, cutoff))));
            var d := DeliverMatch(c, e, p, entry, env);
            && d.trace == c.trace + [Wrote(Some(Render(first)))] + AllSent(plan, e.entryKey, env, cutoff)
                          + (if env.wroteLast then [Wrote(Some(Render(last)))] else [])
            && d.state == last.(lastBoundary := d.state.lastBoundary, lastProblem := d.state.lastProblem)
            && d.disk == c.disk.(file := Some(Render(if env.wroteLast then last else first)))
            && d == c.(state := d.state, disk := d.disk, trace := d.trace)
  {
    hide Plan, AllSent, StartedCount, AnyStopped, FirstProblem, CutoffMillis, Executor.OccurrenceOf, Render;
    var plan, cutoff := Plan(p, entry.targets, env, 0), CutoffMillis(p.expiresAt);
    var sent := AllSent(plan, e.entryKey, env, cutoff);
    assert c.trace + [Wrote(Some(Render(c.state.(occurrence := Some(Executor.OccurrenceOf(e, plan, false))))))] +
           sent + []
        == c.trace + [Wrote(Some(Render(c.state.(occurrence := Some(Executor.OccurrenceOf(e, plan, false))))))] + sent;
  }

  lemma {:induction false} RequestsChangeNothing(d: Disk, effects: seq<Effect>)
    requires forall x :: x in effects ==> ToNode(x)
    ensures DiskAfter(d, effects) == d
    decreases |effects|
  {
    if effects == [] {
    } else {
      assert effects[0] in effects;
      RequestsChangeNothing(d, effects[1..]);
    }
  }

  /** Cut anywhere among the requests or behind them, the file is the first record or the last. */
  lemma FileAfterCut(d: Disk, sent: seq<Effect>, last: Option<Bytes>, wrote: bool, k: nat)
    requires forall x :: x in sent ==> ToNode(x)
    ensures var r := DiskAfter(d, Cut(sent + (if wrote then [Wrote(last)] else []), k)); r == d || r == d.(file := last)
  {
    var all := sent + (if wrote then [Wrote(last)] else []);
    var cut := Cut(all, k);
    if |cut| <= |sent| {
      assert cut == sent[..|cut|];
      RequestsChangeNothing(d, cut);
    } else {
      assert cut == sent + [Wrote(last)];
      RequestsChangeNothing(d, sent);
      DiskAfterAppend(d, sent, [Wrote(last)]);
      assert [Wrote(last)][1..] == [];
    }
  }

  /** A cut behind the first record, wherever it falls. */
  lemma RecordedWhenCut(was: Disk, pre: seq<Effect>, first: Bytes, sent: seq<Effect>, last: Bytes, wrote: bool, k: nat)
    requires (forall x :: x in sent ==> ToNode(x)) && k > |pre|
    ensures var all := pre + [Wrote(Some(first))] + sent + (if wrote then [Wrote(Some(last))] else []);
            var d := DiskAfter(was, Cut(all, k));
            d.file == Some(first) || d.file == Some(last)
  {
    var tail := sent + (if wrote then [Wrote(Some(last))] else []);
    var front := pre + [Wrote(Some(first))];
    var all := pre + [Wrote(Some(first))] + sent + (if wrote then [Wrote(Some(last))] else []);
    assert all == front + tail;
    assert Cut(all, k) == front + Cut(tail, k - |front|);
    DiskAfterAppend(was, front, Cut(tail, k - |front|));
    DiskAfterAppend(was, pre, [Wrote(Some(first))]);
    assert [Wrote(Some(first))][1..] == [];
    FileAfterCut(DiskAfter(was, front), sent, Some(last), wrote, k - |front|);
  }

  /** What a delivery leaves behind, wherever it is cut, once its first request is out. */
  ghost predicate LeavesRecord(was: Disk, effects: seq<Effect>, key: Bytes) {
    forall j, k :: 0 <= j < |effects| && j <= k && ToNode(effects[j]) ==>
      RecordHolds(DiskAfter(was, Cut(effects, k)), effects[j], key)
  }

  ghost predicate RecordHolds(d: Disk, x: Effect, key: Bytes) {
    && SavedFor(d, key)
    && (x.Sent? ==> SavedIds(d, [NodeId(x.node, x.executionId)]))
  }

  lemma {:induction false} SentIdsArePlanned(plan: seq<Planned>, key: Bytes, env: DeliveryEnv, cutoff: int)
    ensures forall x :: x in AllSent(plan, key, env, cutoff) ==>
              ToNode(x) && (x.Sent? ==> NodeId(x.node, x.executionId) in IdsOfPlan(plan))
    decreases |plan|
  {
    hide DeliveryOf;
    if plan == [] {
    } else {
      var first := EffectsOf(plan[0], key, DeliveryOf(plan[0], env, cutoff).requests);
      SentIdsArePlanned(plan[1..], key, env, cutoff);
      assert IdsOfPlan(plan) == [NodeId(plan[0].node, plan[0].executionId)] + IdsOfPlan(plan[1..]);
      forall x | x in first
        ensures ToNode(x) && (x.Sent? ==> NodeId(x.node, x.executionId) in IdsOfPlan(plan))
      {
        var i :| 0 <= i < |first| && first[i] == x;
      }
    }
  }

  lemma RecordOf(d: Disk, s: State, e: Event, plan: seq<Planned>, delivered: bool, x: Effect)
    requires s.mode.Fallback? && s.occurrence == Some(Executor.OccurrenceOf(e, plan, delivered)) && e.identityResolved
    requires Restorable(s) && d.file == Some(Render(s))
    requires ToNode(x) && (x.Sent? ==> NodeId(x.node, x.executionId) in IdsOfPlan(plan))
    ensures RecordHolds(d, x, e.entryKey)
  {
    hide Render, SavedFor, Restorable;
    WrittenIsSaved(d, s);
    assert IsFor(s.occurrence, e.entryKey);
  }

  lemma RestorableAlike(s: State, t: State)
    requires Restorable(s) && s.occurrence.Some? && t.occurrence.Some?
    requires t == s.(occurrence := t.occurrence, lastBoundary := t.lastBoundary, lastProblem := t.lastProblem)
    requires t.occurrence.value == s.occurrence.value.(delivered := t.occurrence.value.delivered)
    ensures Restorable(t)
  {
    hide ValidUtf8;
  }

  lemma DeliveryLeavesRecord(was: Disk, c: Core, e: Event, p: Program, entry: Entry, env: DeliveryEnv)
    requires c.state.mode.Fallback? && env.wroteFirst && e.identityResolved && NoneToNode(c)
    requires Restorable(DeliverMatch(c, e, p, entry, env).state)
    ensures LeavesRecord(was, DeliverMatch(c, e, p, entry, env).trace, e.entryKey)
    ensures var d := DeliverMatch(c, e, p, entry, env);
            && d.state.mode.Fallback? && IsFor(d.state.occurrence, e.entryKey) && SavedFor(d.disk, e.entryKey)
            && d == c.(state := d.state, disk := d.disk, trace := d.trace)
  {
    hide DeliverMatch, Plan, AllSent, AnyStopped, CutoffMillis, Render, Restorable, RecordHolds, SavedFor, IdsOfPlan,
         DiskAfter;
    DeliveryTrace(c, e, p, entry, env);
    var plan, cutoff := Plan(p, entry.targets, env, 0), CutoffMillis(p.expiresAt);
    var first := c.state.(occurrence := Some(Executor.OccurrenceOf(e, plan, false)));
    var last := c.state.(occurrence := Some(Executor.OccurrenceOf(e, plan, !AnyStopped(plan, env, cutoff))));
    var d := DeliverMatch(c, e, p, entry, env);
    var sent := AllSent(plan, e.entryKey, env, cutoff);
    SentIdsArePlanned(plan, e.entryKey, env, cutoff);
    RestorableAlike(d.state, first);
    RestorableAlike(d.state, last);
    WrittenIsSaved(d.disk, if env.wroteLast then last else first);
    assert IsFor(last.occurrence, e.entryKey) && IsFor(first.occurrence, e.entryKey);
    forall j, k | 0 <= j < |d.trace| && j <= k && ToNode(d.trace[j])
      ensures RecordHolds(DiskAfter(was, Cut(d.trace, k)), d.trace[j], e.entryKey)
    {
      RequestIsBehindRecord(c, d.trace, Some(Render(first)), sent,
                            if env.wroteLast then [Wrote(Some(Render(last)))] else [], j);
      RecordedWhenCut(was, c.trace, Render(first), sent, Render(last), env.wroteLast, k);
      var disk := DiskAfter(was, Cut(d.trace, k));
      RecordOf(disk, if disk.file == Some(Render(first)) then first else last, e, plan,
               disk.file != Some(Render(first)) && !AnyStopped(plan, env, cutoff), d.trace[j]);
    }
  }

  lemma RequestIsBehindRecord(c: Core, all: seq<Effect>, first: Option<Bytes>, sent: seq<Effect>, tail: seq<Effect>,
                              j: nat)
    requires NoneToNode(c) && all == c.trace + [Wrote(first)] + sent + tail && j < |all| && ToNode(all[j])
    requires forall x :: x in tail ==> x.Wrote?
    ensures j > |c.trace| && all[j] in sent
  {
    PartOf(c.trace, [Wrote(first)], sent, tail, j);
  }

  lemma PartOf(a: seq<Effect>, b: seq<Effect>, c: seq<Effect>, d: seq<Effect>, j: nat)
    requires j < |a + b + c + d|
    ensures var x := (a + b + c + d)[j]; x in a || x in b || (j >= |a + b| && x in c) || x in d
  {
    var all := a + b + c + d;
    assert j < |a| ==> all[j] == a[j];
    assert |a| <= j < |a + b| ==> all[j] == b[j - |a|];
    assert |a + b| <= j < |a + b + c| ==> all[j] == c[j - |a + b|];
    assert |a + b + c| <= j ==> all[j] == d[j - |a + b + c|];
  }

  /* ---- One callback that sends ---- */

  lemma BoundaryLeavesRecord(was: Disk, cfg: Config, c: Core, e: Event, env: ObserveEnv)
    requires env.delivery.wroteFirst && NoneToNode(c)
    requires Writable(EntryBoundary(cfg, c, e, env).state)
    ensures var d := EntryBoundary(cfg, c, e, env);
            && LeavesRecord(was, d.trace, e.entryKey)
            && ((exists x :: x in d.trace && ToNode(x)) ==>
                  && e.identityResolved && d.state.mode.Fallback? && IsFor(d.state.occurrence, e.entryKey)
                  && SavedFor(d.disk, e.entryKey) && d.sight == c.sight)
  {
    hide DeliverMatch, UsableProblem, Resolve, Lost, SavedFor, RecordHolds, DiskAfter, Restorable;
    var h := HostOf(c, env);
    var r := Resolve(h, e.entryKey, e.at);
    MatchIsTheOnlyEntry(h, e.entryKey, e.at);
    var served := r.Match? && BoundaryProblem(c, e, h).NoProblem? && (!c.state.mode.Normal? || Lost(cfg, c));
    if served {
      var p := r.program;
      var entered := c.(state := Entered(e.at, e.playlistName, p.packageId, p.revision, p.expiresAt),
                        report := c.report.(due := true));
      DeliveryTouches(if c.state.mode.Normal? then entered else c, e, p, r.entry, env.delivery);
      DeliveryLeavesRecord(was, if c.state.mode.Normal? then entered else c, e, p, r.entry, env.delivery);
    }
  }

  lemma DecidedHasForgotten(c: Core, e: Event, env: ObserveEnv)
    ensures !Decided(c, e, env).sight.forget
  {
    hide RestAtCutoff, HandBack, EndsFallback, PersistOccurrence;
    var rested := RestAtCutoff(c.(trace := []), e.at, env.wroteRest);
    var clear := Forgotten(rested.(waiting := rested.waiting.(undecided := false)));
    if rested.state.occurrence.Some? {
      PersistTouches(clear, rested.state.occurrence.value.(delivered := true), env.wroteResume);
    }
  }

  /** A callback that sends anything to a node has the entry on disk first, with every execution id it uses, and from
      its first request on no crash, and no completion, leaves the entry new. */
  lemma SendingSpendsTheEntry(cfg: Config, c: Core, e: Event, env: ObserveEnv)
    requires env.delivery.wroteFirst && Recordable(c, e, env)
    ensures LeavesRecord(c.disk, Observe(cfg, c, e, env).trace, e.entryKey)
    ensures (exists x :: x in Observe(cfg, c, e, env).trace && ToNode(x)) ==>
            Spent(Up(Observe(cfg, c, e, env)), e.entryKey)
  {
    hide Decided, EntryBoundary, SavedFor, RecordHolds, DiskAfter, Restorable, Recordable, Spent;
    DecidedSendsNothing(c, e, env);
    var before := Decided(c, e, env);
    if (e.action.Start? || e.action.Playing?) && !SameOccurrence(before, e) {
      ObserveIsWritable(cfg, c, e, env);
      BoundaryLeavesRecord(c.disk, cfg, Seen(before, e), e, env);
      if exists x :: x in Observe(cfg, c, e, env).trace && ToNode(x) {
        SeenIsSpent(c, e, env, Observe(cfg, c, e, env));
      }
    }
  }

  lemma SeenIsSpent(c: Core, e: Event, env: ObserveEnv, d: Core)
    requires e.identityResolved && d.state.mode.Fallback? && IsFor(d.state.occurrence, e.entryKey)
    requires SavedFor(d.disk, e.entryKey) && d.sight == Seen(Decided(c, e, env), e).sight && Writable(d.state)
    ensures Spent(Up(d), e.entryKey)
  {
    hide Decided, SavedFor, Restorable;
    DecidedHasForgotten(c, e, env);
  }

  /** At most once: once a callback has sent its first request for an entry, then, whether it completes or crashes
      anywhere behind that request, nothing more goes to a node while FPP stays with the entry and the plugin does
      not hand back. The first write of the record must succeed, and what it holds must be recordable. */
  lemma AtMostOnce(cfg: Config, c: Core, e: Event, env: ObserveEnv, j: nat, s: Step, steps: seq<Step>)
    requires env.delivery.wroteFirst && Recordable(c, e, env)
    requires j < |Observe(cfg, c, e, env).trace| && ToNode(Observe(cfg, c, e, env).trace[j])
    requires s == DoObserve(e, env) || (s.CrashInObserve? && s == CrashInObserve(e, env, s.k) && s.k > j)
    requires CanRun(cfg, Next(cfg, Up(c), s), steps) && QuietRun(cfg, Next(cfg, Up(c), s), steps, e.entryKey)
    ensures forall x :: x in EffectsOfRun(cfg, Next(cfg, Up(c), s), steps) ==> !ToNode(x)
  {
    hide Observe, SavedFor, Recordable, EffectsOfRun, QuietRun, CanRun, DiskAfter;
    SendingSpendsTheEntry(cfg, c, e, env);
    var x := Observe(cfg, c, e, env).trace[j];
    assert x in Observe(cfg, c, e, env).trace;
    if s.CrashInObserve? {
      assert RecordHolds(DiskAfter(c.disk, Cut(Observe(cfg, c, e, env).trace, s.k)), x, e.entryKey);
    }
    QuietRunSendsNothing(cfg, Next(cfg, Up(c), s), steps, e.entryKey);
  }

  /** Before each request its execution id is already on disk. */
  lemma IdsAreOnDiskFirst(cfg: Config, c: Core, e: Event, env: ObserveEnv, j: nat)
    requires env.delivery.wroteFirst && Recordable(c, e, env)
    requires j < |Observe(cfg, c, e, env).trace| && Observe(cfg, c, e, env).trace[j].Sent?
    ensures var x := Observe(cfg, c, e, env).trace[j];
            SavedIds(DiskAfter(c.disk, Observe(cfg, c, e, env).trace[..j]), [NodeId(x.node, x.executionId)])
  {
    hide Observe, SavedFor, SavedIds, Recordable, DiskAfter;
    SendingSpendsTheEntry(cfg, c, e, env);
    var effects := Observe(cfg, c, e, env).trace;
    assert Cut(effects, j) == effects[..j];
    assert RecordHolds(DiskAfter(c.disk, Cut(effects, j)), effects[j], e.entryKey);
  }

  /* ---- And an entry that is due is served ---- */

  lemma {:induction false} PlannedIsSent(p: Program, targets: seq<Target>, key: Bytes, env: DeliveryEnv, cutoff: int,
                                         k: nat, i: nat)
    requires k <= i < |targets| && TargetProblem(p, targets[i], env, i).NoProblem? && env.worlds(i).clock(0) < cutoff
    ensures Sent(targets[i].nodeId, env.ids(i).value, key, env.worlds(i).clock(0)) in
            AllSent(Plan(p, targets, env, k), key, env, cutoff)
    decreases i - k
  {
    hide TargetProblem, DeliveryOf, EffectsOf;
    var plan := Plan(p, targets, env, k);
    if k == i {
      FirstPostIsSent(plan[0], key, env, cutoff);
    } else {
      PlannedIsSent(p, targets, key, env, cutoff, k + 1, i);
      if TargetProblem(p, targets[k], env, k).NoProblem? {
        assert plan[1..] == Plan(p, targets, env, k + 1);
      }
    }
  }

  lemma FirstPostIsSent(d: Planned, key: Bytes, env: DeliveryEnv, cutoff: int)
    requires env.worlds(d.index).clock(0) < cutoff
    ensures Sent(d.node, d.executionId, key, env.worlds(d.index).clock(0)) in
            EffectsOf(d, key, DeliveryOf(d, env, cutoff).requests)
  {
    hide NodeDelivery.AfterAnswer;
    var requests := DeliveryOf(d, env, cutoff).requests;
    assert requests[0] == NodeDelivery.Post(env.bodies(d.index), env.worlds(d.index).clock(0));
    assert EffectsOf(d, key, requests)[0] == EffectOf(d, key, requests[0]);
  }

  /** The entry is delivered, this target can be sent to, and the clock is before the cutoff when its turn comes. */
  predicate Due(cfg: Config, c: Core, e: Event, env: ObserveEnv, i: nat) {
    var r := Resolve(HostOf(c, env), e.entryKey, e.at);
    && Served(cfg, c, e, env) && Sendable(r.program, r.entry.targets, env.delivery, i)
    && env.delivery.worlds(i).clock(0) < CutoffMillis(r.program.expiresAt)
  }

  /** The request due to target i. */
  function DueRequest(c: Core, e: Event, env: ObserveEnv, i: nat): Effect
    requires Resolve(HostOf(c, env), e.entryKey, e.at).Match?
    requires i < |Resolve(HostOf(c, env), e.entryKey, e.at).entry.targets| && env.delivery.ids(i).Some?
  {
    Sent(Resolve(HostOf(c, env), e.entryKey, e.at).entry.targets[i].nodeId, env.delivery.ids(i).value, e.entryKey,
         env.delivery.worlds(i).clock(0))
  }

  lemma BoundaryServes(cfg: Config, c: Core, e: Event, env: ObserveEnv, i: nat)
    requires Due(cfg, c, e, env, i)
    ensures env.delivery.ids(i).Some? && DueRequest(c, e, env, i) in EntryBoundary(cfg, c, e, env).trace
  {
    var r := Resolve(HostOf(c, env), e.entryKey, e.at);
    hide Resolve, UsableProblem, Lost, CutoffMillis, Plan, AllSent, DeliverMatch;
    PlannedIsSent(r.program, r.entry.targets, e.entryKey, env.delivery, CutoffMillis(r.program.expiresAt), 0, i);
    var p := r.program;
    var entered := c.(state := Entered(e.at, e.playlistName, p.packageId, p.revision, p.expiresAt),
                      report := c.report.(due := true));
    SentStays(if c.state.mode.Normal? then entered else c, e, p, r.entry, env.delivery);
  }

  /** The other half of the rule for entering: a new occurrence that is this player's, with nothing in its way, is
      sent to every target that can be sent to while the cutoff is ahead. */
  lemma DueEntryIsServed(cfg: Config, c: Core, e: Event, env: ObserveEnv, i: nat)
    requires ActsOnNew(c, e, env) && Due(cfg, Decided(c, e, env), e, env, i)
    ensures env.delivery.ids(i).Some? && DueRequest(Decided(c, e, env), e, env, i) in Observe(cfg, c, e, env).trace
  {
    hide Decided, Resolve, EntryBoundary;
    BoundaryServes(cfg, Seen(Decided(c, e, env), e), e, env, i);
  }

  lemma SentStays(c: Core, e: Event, p: Program, entry: Entry, env: DeliveryEnv)
    ensures forall x :: x in AllSent(Plan(p, entry.targets, env, 0), e.entryKey, env, CutoffMillis(p.expiresAt)) ==>
              x in DeliverMatch(c, e, p, entry, env).trace
  {
    hide Plan, AllSent, StartedCount, AnyStopped, FirstProblem, CutoffMillis, Executor.OccurrenceOf, Render;
  }
}
