/** The record a delivery writes before its first request (native/adapters/shared/fallback_executor.h,
    fallback_state_store.h): exactly when a start can read it back, in terms of what was there before the callback. */
module ExecutorRecord {
  import opened Ordering
  import opened Utf8
  import opened FallbackState
  import opened FallbackProgram
  import opened SavedState
  import opened Executor
  import opened ExecutorSafety

  /* ---- The plan, target by target ---- */

  predicate Sendable(p: Program, targets: seq<Target>, env: DeliveryEnv, i: nat): (r: bool)
    ensures r ==> i < |targets| && env.ids(i).Some?
  {
    i < |targets| && TargetProblem(p, targets[i], env, i).NoProblem?
  }

  ghost predicate IsPlanned(d: Planned, p: Program, targets: seq<Target>, env: DeliveryEnv, k: nat) {
    && k <= d.index && Sendable(p, targets, env, d.index)
    && d.node == targets[d.index].nodeId && d.executionId == env.ids(d.index).value
  }

  /** One delivery for each target from k on that can be sent to, in order. */
  ghost predicate Covers(plan: seq<Planned>, p: Program, targets: seq<Target>, env: DeliveryEnv, k: nat) {
    && (forall d :: d in plan ==> IsPlanned(d, p, targets, env, k))
    && (forall a, b :: 0 <= a < b < |plan| ==> plan[a].index < plan[b].index)
    && (forall i: nat :: k <= i && Sendable(p, targets, env, i) ==> exists a :: 0 <= a < |plan| && plan[a].index == i)
  }

  lemma CoversOneMore(later: seq<Planned>, p: Program, targets: seq<Target>, env: DeliveryEnv, k: nat)
    requires Sendable(p, targets, env, k) && Covers(later, p, targets, env, k + 1)
    ensures Covers([Planned(k, targets[k].nodeId, env.ids(k).value)] + later, p, targets, env, k)
  {
    hide TargetProblem;
    var first := Planned(k, targets[k].nodeId, env.ids(k).value);
    var plan := [first] + later;
    assert forall a :: 0 < a < |plan| ==> plan[a] == later[a - 1];
    forall d | d in plan
      ensures IsPlanned(d, p, targets, env, k)
    {
      assert d == first || d in later;
    }
    forall a, b | 0 <= a < b < |plan|
      ensures plan[a].index < plan[b].index
    {
      assert later[b - 1] in later;
    }
    forall i: nat | k <= i && Sendable(p, targets, env, i)
      ensures exists a :: 0 <= a < |plan| && plan[a].index == i
    {
      if i == k {
        assert plan[0].index == i;
      } else {
        var a :| 0 <= a < |later| && later[a].index == i;
        assert plan[a + 1].index == i;
      }
    }
  }

  lemma CoversNoMore(later: seq<Planned>, p: Program, targets: seq<Target>, env: DeliveryEnv, k: nat)
    requires !Sendable(p, targets, env, k) && Covers(later, p, targets, env, k + 1)
    ensures Covers(later, p, targets, env, k)
  {
    hide TargetProblem;
    assert forall i: nat :: k <= i && Sendable(p, targets, env, i) ==> k + 1 <= i;
  }

  lemma {:induction false} PlanCovers(p: Program, targets: seq<Target>, env: DeliveryEnv, k: nat)
    requires k <= |targets|
    ensures Covers(Plan(p, targets, env, k), p, targets, env, k)
    decreases |targets| - k
  {
    hide TargetProblem, Covers;
    if k == |targets| {
      NothingToCover(p, targets, env);
    } else {
      PlanCovers(p, targets, env, k + 1);
      if Sendable(p, targets, env, k) {
        CoversOneMore(Plan(p, targets, env, k + 1), p, targets, env, k);
      } else {
        CoversNoMore(Plan(p, targets, env, k + 1), p, targets, env, k);
      }
    }
  }

  lemma NothingToCover(p: Program, targets: seq<Target>, env: DeliveryEnv)
    ensures Covers([], p, targets, env, |targets|)
  {
  }

  /** No two targets that can be sent to name one node, and all names and ids are valid text. */
  ghost predicate TargetsFit(p: Program, targets: seq<Target>, env: DeliveryEnv) {
    && (forall i: nat :: Sendable(p, targets, env, i) ==> ValidUtf8(targets[i].nodeId) && ValidUtf8(env.ids(i).value))
    && forall i: nat, j: nat :: i < j && Sendable(p, targets, env, i) && Sendable(p, targets, env, j) ==>
         targets[i].nodeId != targets[j].nodeId
  }

  lemma TargetsFitIff(p: Program, targets: seq<Target>, env: DeliveryEnv)
    ensures var ids := IdsOfPlan(Plan(p, targets, env, 0));
            DistinctNodes(ids) && ValidIds(ids) <==> TargetsFit(p, targets, env)
  {
    hide ValidUtf8, Sendable, TargetsFit, DistinctNodes, ValidIds;
    if TargetsFit(p, targets, env) {
      FittingPlan(p, targets, env);
    }
    var ids := IdsOfPlan(Plan(p, targets, env, 0));
    if DistinctNodes(ids) && ValidIds(ids) {
      PlanFits(p, targets, env);
    }
  }

  /** The target of a planned delivery, and that no other has the same. */
  lemma TargetOf(p: Program, targets: seq<Target>, env: DeliveryEnv, a: nat, b: nat)
    requires a < b < |Plan(p, targets, env, 0)|
    ensures var plan := Plan(p, targets, env, 0);
            && IsPlanned(plan[a], p, targets, env, 0) && IsPlanned(plan[b], p, targets, env, 0)
            && plan[a].index < plan[b].index
  {
    PlanCovers(p, targets, env, 0);
    hide Plan, Sendable;
    var plan := Plan(p, targets, env, 0);
    assert plan[a] in plan && plan[b] in plan;
  }

  lemma FittingPlan(p: Program, targets: seq<Target>, env: DeliveryEnv)
    requires TargetsFit(p, targets, env)
    ensures var ids := IdsOfPlan(Plan(p, targets, env, 0)); DistinctNodes(ids) && ValidIds(ids)
  {
    var plan := Plan(p, targets, env, 0);
    var ids := IdsOfPlan(plan);
    forall id | id in ids
      ensures ValidUtf8(id.node) && ValidUtf8(id.executionId)
    {
      PlanCovers(p, targets, env, 0);
      hide ValidUtf8, Plan, Sendable;
      var a :| 0 <= a < |ids| && ids[a] == id;
      assert plan[a] in plan && IsPlanned(plan[a], p, targets, env, 0);
    }
    hide ValidUtf8, Plan, Sendable;
    forall a: nat, b: nat | a < b < |ids|
      ensures ids[a].node != ids[b].node
    {
      TargetOf(p, targets, env, a, b);
    }
  }

  /** The planned delivery of a target. */
  lemma PlannedAt(p: Program, targets: seq<Target>, env: DeliveryEnv, i: nat) returns (a: nat)
    requires Sendable(p, targets, env, i)
    ensures var plan := Plan(p, targets, env, 0);
            a < |plan| && plan[a] == Planned(i, targets[i].nodeId, env.ids(i).value)
  {
    PlanCovers(p, targets, env, 0);
    hide Plan, TargetProblem;
    var plan := Plan(p, targets, env, 0);
    a :| 0 <= a < |plan| && plan[a].index == i;
    assert plan[a] in plan && IsPlanned(plan[a], p, targets, env, 0);
  }

  lemma PlanFits(p: Program, targets: seq<Target>, env: DeliveryEnv)
    requires var ids := IdsOfPlan(Plan(p, targets, env, 0)); DistinctNodes(ids) && ValidIds(ids)
    ensures TargetsFit(p, targets, env)
  {
    hide ValidUtf8, Plan, TargetProblem;
    var ids := IdsOfPlan(Plan(p, targets, env, 0));
    forall i: nat | Sendable(p, targets, env, i)
      ensures ValidUtf8(targets[i].nodeId) && ValidUtf8(env.ids(i).value)
    {
      var a := PlannedAt(p, targets, env, i);
      assert ids[a] in ids;
    }
    forall i: nat, j: nat | i < j && Sendable(p, targets, env, i) && Sendable(p, targets, env, j)
      ensures targets[i].nodeId != targets[j].nodeId
    {
      var a := PlannedAt(p, targets, env, i);
      var b := PlannedAt(p, targets, env, j);
      assert a < b ==> ids[a].node != ids[b].node;
      assert b < a ==> ids[b].node != ids[a].node;
    }
  }

  /* ---- The record ---- */

  predicate TextsFit(playlist: Bytes, package: Bytes, revision: Bytes, cutoff: Bytes) {
    playlist != [] && ValidUtf8(playlist) && ValidUtf8(package) && ValidUtf8(revision) && ValidUtf8(cutoff)
  }

  /** The spell of fallback can be named in a record. */
  predicate Named(s: State) {
    TextsFit(s.playlistName, s.packageId, s.packageRevision, s.cutoffAt)
  }

  lemma DeliveredIsRestorableIff(c: Core, e: Event, p: Program, entry: Entry, env: DeliveryEnv)
    requires c.state.mode.Fallback?
    ensures DeliverMatch(c, e, p, entry, env).state.mode.Fallback?
    ensures Restorable(DeliverMatch(c, e, p, entry, env).state) <==>
            Named(c.state) && ValidUtf8(e.entryKey) && TargetsFit(p, entry.targets, env)
  {
    TargetsFitIff(p, entry.targets, env);
    DeliveredOccurrence(c, e, p, entry, env);
    hide DeliverMatch, ValidUtf8, TargetsFit, Plan, IdsOfPlan, DistinctNodes, ValidIds;
  }

  lemma DeliveredOccurrence(c: Core, e: Event, p: Program, entry: Entry, env: DeliveryEnv)
    requires c.state.mode.Fallback?
    ensures var s := DeliverMatch(c, e, p, entry, env).state;
            && s.mode.Fallback? && s.playlistName == c.state.playlistName && s.packageId == c.state.packageId
            && s.packageRevision == c.state.packageRevision && s.cutoffAt == c.state.cutoffAt
            && s.occurrence.Some? && s.occurrence.value.entryKey == e.entryKey
            && s.occurrence.value.executionIds == IdsOfPlan(Plan(p, entry.targets, env, 0))
  {
    hide Plan, IdsOfPlan, AllSent, StartedCount, AnyStopped, FirstProblem, CutoffMillis, Saved;
    var plan := Plan(p, entry.targets, env, 0);
    var o := Executor.OccurrenceOf(e, plan, false);
    var noted := PersistOccurrence(c, o, env.wroteFirst);
    PersistTouches(c, o, env.wroteFirst);
    var sent := noted.(trace := noted.trace + AllSent(plan, e.entryKey, env, CutoffMillis(p.expiresAt)));
    PersistTouches(sent, Executor.OccurrenceOf(e, plan, !AnyStopped(plan, env, CutoffMillis(p.expiresAt))),
                   env.wroteLast);
  }

  /** The entry is delivered: nothing stands in its way, and it matches. */
  predicate Served(cfg: Config, c: Core, e: Event, env: ObserveEnv) {
    && BoundaryProblem(c, e, HostOf(c, env)).NoProblem? && (c.state.mode.Normal? ==> Lost(cfg, c))
    && Resolve(HostOf(c, env), e.entryKey, e.at).Match?
  }

  /** The record its delivery would write can be read back. */
  ghost predicate RecordFits(c: Core, e: Event, env: ObserveEnv) {
    var r := Resolve(HostOf(c, env), e.entryKey, e.at);
    && r.Match? && ValidUtf8(e.entryKey) && TargetsFit(r.program, r.entry.targets, env.delivery)
    && if c.state.mode.Normal? then TextsFit(e.playlistName, r.program.packageId, r.program.revision,
                                             r.program.expiresAt)
       else Named(c.state)
  }

  lemma BoundaryIsRestorableIff(cfg: Config, c: Core, e: Event, env: ObserveEnv)
    requires Served(cfg, c, e, env)
    ensures EntryBoundary(cfg, c, e, env).state.mode.Fallback?
    ensures Restorable(EntryBoundary(cfg, c, e, env).state) <==> RecordFits(c, e, env)
  {
    hide DeliverMatch, Restorable, ValidUtf8, TargetsFit, Resolve, UsableProblem, Lost;
    var r := Resolve(HostOf(c, env), e.entryKey, e.at);
    var p := r.program;
    var entered := c.(state := Entered(e.at, e.playlistName, p.packageId, p.revision, p.expiresAt),
                      report := c.report.(due := true));
    if c.state.mode.Normal? {
      DeliveredIsRestorableIff(entered, e, p, r.entry, env.delivery);
    } else {
      DeliveredIsRestorableIff(c, e, p, r.entry, env.delivery);
    }
  }

  /** The callback acts on a new occurrence. */
  predicate ActsOnNew(c: Core, e: Event, env: ObserveEnv) {
    (e.action.Start? || e.action.Playing?) && !SameOccurrence(Decided(c, e, env), e)
  }

  /** Of a callback that delivers an entry: a start can read its record exactly if what was there before fits. */
  lemma ServedIsRestorableIff(cfg: Config, c: Core, e: Event, env: ObserveEnv)
    requires ActsOnNew(c, e, env) && Served(cfg, Decided(c, e, env), e, env)
    ensures Observe(cfg, c, e, env).state.mode.Fallback?
    ensures Restorable(Observe(cfg, c, e, env).state) <==> RecordFits(Decided(c, e, env), e, env)
  {
    hide Decided, EntryBoundary, Restorable, RecordFits, Served;
    var d := Decided(c, e, env);
    SeenIsServed(cfg, d, e, env);
    BoundaryIsRestorableIff(cfg, Seen(d, e), e, env);
  }

  lemma SeenIsServed(cfg: Config, c: Core, e: Event, env: ObserveEnv)
    ensures Served(cfg, Seen(c, e), e, env) <==> Served(cfg, c, e, env)
    ensures RecordFits(Seen(c, e), e, env) <==> RecordFits(c, e, env)
  {
    hide Resolve, UsableProblem, TargetsFit, TextsFit, ValidUtf8;
  }

  /* ---- Enough to know before the callback ---- */

  /** The state needs no file, or could be written so that it can be read. */
  ghost predicate Writable(s: State) {
    s.mode.Normal? || Restorable(s)
  }

  /** The state is writable, the event's and the program's texts are valid, an entry that is identified belongs to a
      playlist, and the targets fit. */
  ghost predicate Recordable(c: Core, e: Event, env: ObserveEnv) {
    var r := Resolve(HostOf(c, env), e.entryKey, e.at);
    && Writable(c.state)
    && ValidUtf8(e.playlistName) && ValidUtf8(e.entryKey) && (e.identityResolved ==> e.playlistName != [])
    && (r.Match? ==>
          && ValidUtf8(r.program.packageId) && ValidUtf8(r.program.revision) && ValidUtf8(r.program.expiresAt)
          && TargetsFit(r.program, r.entry.targets, env.delivery))
  }

  lemma DecidedIsWritable(c: Core, e: Event, env: ObserveEnv)
    requires Writable(c.state)
    ensures Writable(Decided(c, e, env).state)
  {
    hide CutoffPassed, RestAtCutoff, HandBack, PersistOccurrence, EndsFallback, ValidUtf8;
    var rested := RestAtCutoff(c.(trace := []), e.at, env.wroteRest);
    RestTouches(c.(trace := []), e.at, env.wroteRest);
    HandBackTouches(rested, e.at, env.urlReadable);
    var clear := Forgotten(rested.(waiting := rested.waiting.(undecided := false)));
    if rested.state.occurrence.Some? {
      PersistTouches(clear, rested.state.occurrence.value.(delivered := true), env.wroteResume);
    }
  }

  lemma ProgramStays(c: Core, e: Event, env: ObserveEnv)
    ensures Decided(c, e, env).disk.program == c.disk.program
  {
    hide Decided;
    DecisionOnlyEnds(c, e, env);
  }

  lemma RecordableBoundary(cfg: Config, c: Core, d: Core, e: Event, env: ObserveEnv)
    requires Recordable(c, e, env) && Writable(d.state) && d.disk.program == c.disk.program
    ensures Writable(EntryBoundary(cfg, Seen(d, e), e, env).state)
  {
    hide EntryBoundary, Resolve, Served, Recordable, RecordFits;
    SeenIsServed(cfg, d, e, env);
    if Served(cfg, d, e, env) {
      RecordableFits(cfg, c, d, e, env);
      SeenIsWritable(cfg, Seen(d, e), e, env);
    } else {
      hide Writable;
      UnservedKeepsState(cfg, Seen(d, e), e, env);
    }
  }

  /** What is recordable is readable afterwards. */
  lemma ObserveIsWritable(cfg: Config, c: Core, e: Event, env: ObserveEnv)
    requires Recordable(c, e, env)
    ensures Writable(Observe(cfg, c, e, env).state)
  {
    ProgramStays(c, e, env);
    RecordableIsWritable(c, e, env);
    DecidedIsWritable(c, e, env);
    hide Decided, EntryBoundary, SameOccurrence, Writable, Recordable;
    RecordableBoundary(cfg, c, Decided(c, e, env), e, env);
  }

  lemma RecordableIsWritable(c: Core, e: Event, env: ObserveEnv)
    requires Recordable(c, e, env)
    ensures Writable(c.state)
  {
  }

  lemma SeenIsWritable(cfg: Config, c: Core, e: Event, env: ObserveEnv)
    requires Served(cfg, c, e, env) && RecordFits(c, e, env)
    ensures Writable(EntryBoundary(cfg, c, e, env).state)
  {
    hide EntryBoundary, Served, RecordFits;
    BoundaryIsRestorableIff(cfg, c, e, env);
  }

  lemma RecordableFits(cfg: Config, c: Core, d: Core, e: Event, env: ObserveEnv)
    requires Recordable(c, e, env) && Served(cfg, d, e, env) && d.disk.program == c.disk.program && Writable(d.state)
    ensures RecordFits(d, e, env)
  {
    hide Resolve, UsableProblem, ValidUtf8, TargetsFit, RestorableOccurrence, Lost;
  }

  lemma UnservedKeepsState(cfg: Config, c: Core, e: Event, env: ObserveEnv)
    requires !Served(cfg, c, e, env) && Writable(c.state)
    ensures Writable(EntryBoundary(cfg, c, e, env).state)
    ensures EntryBoundary(cfg, c, e, env).trace == c.trace
  {
    hide Resolve, UsableProblem, ValidUtf8, Lost, DeliverMatch, RestorableOccurrence;
  }
}
