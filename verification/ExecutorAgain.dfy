/** Where at-most-once ends (native/adapters/shared/fallback_executor.h): exactly when a callback sends, exactly when a
    settled hand-back sends the recorded entry again, and exactly when a crash forgets what was sent. */
module ExecutorAgain {
  import opened Basics
  import opened Ordering
  import opened Utf8
  import opened FallbackState
  import opened FallbackProgram
  import opened SavedState
  import opened Executor
  import opened ExecutorSafety
  import opened ExecutorRecord
  import opened ExecutorRun
  import opened ExecutorLimits
  import opened ExecutorOnce
  import NodeDelivery

  /* ---- When a callback sends ---- */

  ghost predicate SendsSomething(effects: seq<Effect>) {
    exists x :: x in effects && ToNode(x)
  }

  /** A request of this delivery, whose turn came before the cutoff. */
  ghost predicate ComesFrom(x: Effect, d: Planned, env: DeliveryEnv, cutoff: int) {
    env.worlds(d.index).clock(0) < cutoff && (x.Sent? ==> x.node == d.node && x.executionId == d.executionId)
  }

  lemma {:induction false} SentComesFrom(plan: seq<Planned>, key: Bytes, env: DeliveryEnv, cutoff: int, x: Effect)
    requires x in AllSent(plan, key, env, cutoff)
    ensures exists d :: d in plan && ComesFrom(x, d, env, cutoff)
    decreases |plan|
  {
    hide NodeDelivery.AfterAnswer;
    var requests := DeliveryOf(plan[0], env, cutoff).requests;
    var first := EffectsOf(plan[0], key, requests);
    if x in first {
      var k :| 0 <= k < |first| && first[k] == x;
      assert x == EffectOf(plan[0], key, requests[k]);
      assert plan[0] in plan && ComesFrom(x, plan[0], env, cutoff);
    } else {
      SentComesFrom(plan[1..], key, env, cutoff, x);
    }
  }

  lemma DeliveryAdds(c: Core, e: Event, p: Program, entry: Entry, env: DeliveryEnv)
    ensures forall x :: x in DeliverMatch(c, e, p, entry, env).trace && ToNode(x) ==>
              x in c.trace || x in AllSent(Plan(p, entry.targets, env, 0), e.entryKey, env, CutoffMillis(p.expiresAt))
  {
    hide Plan, AllSent, StartedCount, AnyStopped, FirstProblem, CutoffMillis, PersistOccurrence, Executor.OccurrenceOf;
    var plan, cutoff := Plan(p, entry.targets, env, 0), CutoffMillis(p.expiresAt);
    var o := Executor.OccurrenceOf(e, plan, false);
    PersistAdds(c, o, env.wroteFirst);
    var noted := PersistOccurrence(c, o, env.wroteFirst);
    var sent := noted.(trace := noted.trace + AllSent(plan, e.entryKey, env, cutoff));
    PersistAdds(sent, Executor.OccurrenceOf(e, plan, !AnyStopped(plan, env, cutoff)), env.wroteLast);
  }

  lemma UnservedSendsNothing(cfg: Config, c: Core, e: Event, env: ObserveEnv)
    requires !Served(cfg, c, e, env)
    ensures EntryBoundary(cfg, c, e, env).trace == c.trace
  {
    hide Resolve, UsableProblem, Lost, DeliverMatch;
  }

  /** What reaches a node comes from a target that was due. */
  ghost predicate DueFor(cfg: Config, c: Core, e: Event, env: ObserveEnv, i: nat, x: Effect) {
    && Due(cfg, c, e, env, i)
    && (x.Sent? ==> x.node == NodeAt(c, e, env, i) && x.executionId == env.delivery.ids(i).value)
  }

  function NodeAt(c: Core, e: Event, env: ObserveEnv, i: nat): Bytes
    requires var r := Resolve(HostOf(c, env), e.entryKey, e.at); r.Match? && i < |r.entry.targets|
  {
    Resolve(HostOf(c, env), e.entryKey, e.at).entry.targets[i].nodeId
  }

  lemma BoundarySendsOnlyDue(cfg: Config, c: Core, e: Event, env: ObserveEnv, x: Effect)
    requires NoneToNode(c) && x in EntryBoundary(cfg, c, e, env).trace && ToNode(x)
    ensures exists i: nat :: DueFor(cfg, c, e, env, i, x)
  {
    if !Served(cfg, c, e, env) {
      UnservedSendsNothing(cfg, c, e, env);
    }
    var r := Resolve(HostOf(c, env), e.entryKey, e.at);
    hide Resolve, UsableProblem, Lost, CutoffMillis, DeliverMatch, Plan, AllSent, Sendable;
    var p, cutoff := r.program, CutoffMillis(r.program.expiresAt);
    ServedDelivers(cfg, c, e, env);
    DeliveryAdds(InFallback(c, e, p), e, p, r.entry, env.delivery);
    SentComesFrom(Plan(p, r.entry.targets, env.delivery, 0), e.entryKey, env.delivery, cutoff, x);
    var d :| d in Plan(p, r.entry.targets, env.delivery, 0) && ComesFrom(x, d, env.delivery, cutoff);
    PlanCovers(p, r.entry.targets, env.delivery, 0);
    assert IsPlanned(d, p, r.entry.targets, env.delivery, 0);
    assert DueFor(cfg, c, e, env, d.index, x);
  }

  /** So of a whole callback: its requests are those of due targets, and it makes none but for a new occurrence. */
  lemma SentIsDue(cfg: Config, c: Core, e: Event, env: ObserveEnv, x: Effect)
    requires x in Observe(cfg, c, e, env).trace && ToNode(x)
    ensures ActsOnNew(c, e, env) && exists i: nat :: DueFor(cfg, Decided(c, e, env), e, env, i, x)
  {
    var d := Decided(c, e, env);
    DecidedSendsNothing(c, e, env);
    hide Decided, EntryBoundary, DueFor;
    BoundarySendsOnlyDue(cfg, Seen(d, e), e, env, x);
    var i: nat :| DueFor(cfg, Seen(d, e), e, env, i, x);
    SeenIsDueFor(cfg, d, e, env, i, x);
  }

  lemma SeenIsDueFor(cfg: Config, c: Core, e: Event, env: ObserveEnv, i: nat, x: Effect)
    requires DueFor(cfg, Seen(c, e), e, env, i, x)
    ensures DueFor(cfg, c, e, env, i, x)
  {
    hide Resolve, UsableProblem, CutoffMillis, TargetProblem;
  }

  /** A callback for a new occurrence sends something exactly if something is due. */
  lemma SendsIffDue(cfg: Config, c: Core, e: Event, env: ObserveEnv)
    requires ActsOnNew(c, e, env)
    ensures SendsSomething(Observe(cfg, c, e, env).trace) <==> exists i: nat :: Due(cfg, Decided(c, e, env), e, env, i)
  {
    var d := Decided(c, e, env);
    hide Decided, Observe;
    forall i: nat | Due(cfg, d, e, env, i)
      ensures SendsSomething(Observe(cfg, c, e, env).trace)
    {
      DueEntryIsServed(cfg, c, e, env, i);
      assert ToNode(DueRequest(d, e, env, i));
    }
    hide Due;
    if SendsSomething(Observe(cfg, c, e, env).trace) {
      var x :| x in Observe(cfg, c, e, env).trace && ToNode(x);
      SentIsDue(cfg, c, e, env, x);
    }
  }

  ghost predicate OneIdEach(effects: seq<Effect>) {
    forall x, y :: x in effects && y in effects && x.Sent? && y.Sent? && x.node == y.node ==>
      x.executionId == y.executionId
  }

  ghost predicate SameNode(cfg: Config, c: Core, e: Event, env: ObserveEnv, i: nat, j: nat) {
    Due(cfg, c, e, env, i) && Due(cfg, c, e, env, j) && NodeAt(c, e, env, i) == NodeAt(c, e, env, j)
  }

  lemma BothAreSent(cfg: Config, c: Core, e: Event, env: ObserveEnv, i: nat, j: nat)
    requires ActsOnNew(c, e, env) && SameNode(cfg, Decided(c, e, env), e, env, i, j)
    ensures OneIdEach(Observe(cfg, c, e, env).trace) ==> env.delivery.ids(i) == env.delivery.ids(j)
  {
    hide Decided, Observe, Resolve, BoundaryProblem, Lost, CutoffMillis, TargetProblem;
    DueEntryIsServed(cfg, c, e, env, i);
    DueEntryIsServed(cfg, c, e, env, j);
    var d := Decided(c, e, env);
    var x, y := DueRequest(d, e, env, i), DueRequest(d, e, env, j);
    assert x.node == y.node;
  }

  /** When a node is given one id only for one occurrence: exactly if no two targets that are due name it
      with two ids. */
  lemma OneIdPerNode(cfg: Config, c: Core, e: Event, env: ObserveEnv)
    requires ActsOnNew(c, e, env)
    ensures OneIdEach(Observe(cfg, c, e, env).trace) <==>
            forall i: nat, j: nat :: SameNode(cfg, Decided(c, e, env), e, env, i, j) ==>
              env.delivery.ids(i) == env.delivery.ids(j)
  {
    hide Decided, Observe, Due;
    var d, effects := Decided(c, e, env), Observe(cfg, c, e, env).trace;
    if OneIdEach(effects) {
      forall i: nat, j: nat | SameNode(cfg, d, e, env, i, j)
        ensures env.delivery.ids(i) == env.delivery.ids(j)
      {
        BothAreSent(cfg, c, e, env, i, j);
      }
    }
    if forall i: nat, j: nat :: SameNode(cfg, d, e, env, i, j) ==> env.delivery.ids(i) == env.delivery.ids(j) {
      forall x, y | x in effects && y in effects && x.Sent? && y.Sent? && x.node == y.node
        ensures x.executionId == y.executionId
      {
        SentIsDue(cfg, c, e, env, x);
        SentIsDue(cfg, c, e, env, y);
        var i: nat :| DueFor(cfg, d, e, env, i, x);
        var j: nat :| DueFor(cfg, d, e, env, j, y);
        assert SameNode(cfg, d, e, env, i, j);
      }
    }
  }

  lemma DueLooksAt(cfg: Config, c: Core, d: Core, e: Event, env: ObserveEnv, i: nat)
    requires d.state == c.state && d.disk == c.disk && d.link == c.link
    ensures Due(cfg, d, e, env, i) <==> Due(cfg, c, e, env, i)
  {
    hide Resolve, UsableProblem, CutoffMillis, TargetProblem;
  }

  /* ---- The settle window ---- */

  lemma SettleForgets(cfg: Config, c: Core, env: TickEnv)
    requires Settled(cfg, c, env.monotonic)
    ensures var t := Tick(cfg, c, env); t.sight.forget && t.state.mode.Normal? && !t.waiting.undecided
  {
    hide ProbePart, RestAtCutoff, HandBack, CoordinatorPart, ProbedNow, CutoffPassed;
    var begun := c.(trace := []);
    var probed := ProbePart(cfg, begun, env);
    ProbeTouches(cfg, begun, env);
    RestTouches(probed, env.now, env.wroteRest);
    var rested := RestAtCutoff(probed, env.now, env.wroteRest);
    HandBackTouches(rested, env.now, env.urlLater);
    CoordinatorTouches(SettlePart(cfg, rested, env), env, ProbedNow(cfg, c, env));
  }

  lemma UnsettledKeeps(cfg: Config, c: Core, env: TickEnv)
    requires !c.state.mode.Normal? && !Settled(cfg, c, env.monotonic)
    ensures var t := Tick(cfg, c, env);
            t.state.playlistName == c.state.playlistName && t.waiting == c.waiting && t.sight == c.sight
              && !t.state.mode.Normal?
  {
    hide ProbePart, RestAtCutoff, HandBack, CoordinatorPart, ProbedNow, CutoffPassed;
    var begun := c.(trace := []);
    var probed := ProbePart(cfg, begun, env);
    ProbeTouches(cfg, begun, env);
    RestTouches(probed, env.now, env.wroteRest);
    var rested := RestAtCutoff(probed, env.now, env.wroteRest);
    CoordinatorTouches(rested, env, ProbedNow(cfg, c, env));
  }

  lemma NormalDecides(c: Core, e: Event, env: ObserveEnv)
    requires c.state.mode.Normal? && c.sight.forget && !c.waiting.undecided
    ensures Decided(c, e, env) == c.(trace := [], sight := Sight(None, false, false))
  {
  }

  /** Where at-most-once ends: after a tick, the next callback for the entry on record sends something exactly if that
      tick's settle window handed the state back and something is due: then the very entry acted on is sent again. */
  lemma SettledHandBackSendsAgain(cfg: Config, c: Core, tick: TickEnv, e: Event, env: ObserveEnv)
    requires Spent(Up(c), e.entryKey) && StillThere(c, e, e.entryKey) && (e.action.Start? || e.action.Playing?)
    ensures var t := Tick(cfg, c, tick);
            SendsSomething(Observe(cfg, t, e, env).trace) <==>
            Settled(cfg, c, tick.monotonic) && exists i: nat :: Due(cfg, t, e, env, i)
  {
    hide Tick, Decided, Observe, SavedFor, Restorable, Due;
    var t := Tick(cfg, c, tick);
    if Settled(cfg, c, tick.monotonic) {
      SettleForgets(cfg, c, tick);
      NormalDecides(t, e, env);
      SendsIffDue(cfg, t, e, env);
      forall i: nat
        ensures Due(cfg, Decided(t, e, env), e, env, i) <==> Due(cfg, t, e, env, i)
      {
        DueLooksAt(cfg, t, Decided(t, e, env), e, env, i);
      }
    } else {
      UnsettledKeeps(cfg, c, tick);
      QuietTick(cfg, c, tick, e.entryKey);
      QuietObserve(cfg, t, e, env, e.entryKey);
    }
  }

  /* ---- A crash behind the first request ---- */

  /** Cut behind the record's first write, the file holds the record as it was written first or last. */
  lemma DeliveryFileWhenCut(was: Disk, c: Core, e: Event, p: Program, entry: Entry, env: DeliveryEnv, k: nat)
    requires c.state.mode.Fallback? && env.wroteFirst && k > |c.trace|
    ensures var s := DeliverMatch(c, e, p, entry, env).state;
            var d := DiskAfter(was, Cut(DeliverMatch(c, e, p, entry, env).trace, k));
            exists t: State :: d.file == Some(Render(t)) && t.mode.Fallback? && SameRecord(s, t)
  {
    hide DeliverMatch, Plan, AllSent, AnyStopped, CutoffMillis, Render, IdsOfPlan, DiskAfter;
    DeliveryTrace(c, e, p, entry, env);
    var plan, cutoff := Plan(p, entry.targets, env, 0), CutoffMillis(p.expiresAt);
    var first := c.state.(occurrence := Some(Executor.OccurrenceOf(e, plan, false)));
    var last := c.state.(occurrence := Some(Executor.OccurrenceOf(e, plan, !AnyStopped(plan, env, cutoff))));
    var sent := AllSent(plan, e.entryKey, env, cutoff);
    SentIdsArePlanned(plan, e.entryKey, env, cutoff);
    RecordedWhenCut(was, c.trace, Render(first), sent, Render(last), env.wroteLast, k);
    var s := DeliverMatch(c, e, p, entry, env).state;
    assert SameRecord(s, first) && SameRecord(s, last);
  }

  /** Two states of one spell with one record, delivered or not. */
  ghost predicate SameRecord(s: State, t: State) {
    && s.playlistName == t.playlistName && s.packageId == t.packageId && s.packageRevision == t.packageRevision
    && s.cutoffAt == t.cutoffAt && s.occurrence.Some? && t.occurrence.Some?
    && t.occurrence.value == s.occurrence.value.(delivered := t.occurrence.value.delivered)
  }

  lemma SameRecordIsRestorable(s: State, t: State)
    requires SameRecord(s, t)
    ensures Restorable(s) <==> Restorable(t)
  {
    hide ValidUtf8;
  }

  /** What a start finds in such a file: the record if it can be read, otherwise nothing. */
  lemma FoundIff(d: Disk, s: State, t: State, key: Bytes, now: int, monotonic: int)
    requires d.file == Some(Render(t)) && t.mode.Fallback? && SameRecord(s, t) && IsFor(s.occurrence, key)
    ensures SavedFor(d, key) <==> Restorable(s)
    ensures !Restorable(s) ==> Restored(d, now, monotonic) == FreshCore(d, now, monotonic)
  {
    hide Render, ParseState, IdsInOrder, Restorable, CutoffPassed;
    SavedStateComesBack(t);
    SameRecordIsRestorable(s, t);
  }

  lemma BoundaryRecordWhenCut(was: Disk, cfg: Config, c: Core, e: Event, env: ObserveEnv, j: nat, k: nat, now: int,
                              monotonic: int)
    requires env.delivery.wroteFirst && NoneToNode(c)
    requires j < |EntryBoundary(cfg, c, e, env).trace| && ToNode(EntryBoundary(cfg, c, e, env).trace[j]) && k > j
    ensures var d := DiskAfter(was, Cut(EntryBoundary(cfg, c, e, env).trace, k));
            && (SavedFor(d, e.entryKey) <==> RecordFits(c, e, env))
            && (!RecordFits(c, e, env) ==> Restored(d, now, monotonic) == FreshCore(d, now, monotonic))
  {
    assert EntryBoundary(cfg, c, e, env).trace[j] in EntryBoundary(cfg, c, e, env).trace;
    if !Served(cfg, c, e, env) {
      UnservedSendsNothing(cfg, c, e, env);
    }
    BoundaryIsRestorableIff(cfg, c, e, env);
    ServedDelivers(cfg, c, e, env);
    hide EntryBoundary, Served, Resolve, DeliverMatch, SavedFor, RecordFits, DiskAfter, Restorable, FreshCore, Restored;
    var r := Resolve(HostOf(c, env), e.entryKey, e.at);
    var p, from := r.program, InFallback(c, e, r.program);
    FirstRequestIsBehind(from, e, p, r.entry, env.delivery, j);
    DeliveryFileWhenCut(was, from, e, p, r.entry, env.delivery, k);
    var full := DeliverMatch(from, e, p, r.entry, env.delivery);
    var d := DiskAfter(was, Cut(full.trace, k));
    var t: State :| d.file == Some(Render(t)) && t.mode.Fallback? && SameRecord(full.state, t);
    DeliveryIsFor(from, e, p, r.entry, env.delivery);
    FoundIff(d, full.state, t, e.entryKey, now, monotonic);
  }

  /** The fallback an entry is delivered in, entered for it where it was not yet. */
  function InFallback(c: Core, e: Event, p: Program): Core {
    if c.state.mode.Normal?
    then c.(state := Entered(e.at, e.playlistName, p.packageId, p.revision, p.expiresAt),
            report := c.report.(due := true))
    else c
  }

  lemma ServedDelivers(cfg: Config, c: Core, e: Event, env: ObserveEnv)
    requires Served(cfg, c, e, env)
    ensures var r := Resolve(HostOf(c, env), e.entryKey, e.at);
            && e.identityResolved && InFallback(c, e, r.program).state.mode.Fallback?
            && InFallback(c, e, r.program).trace == c.trace
            && EntryBoundary(cfg, c, e, env) ==
               DeliverMatch(InFallback(c, e, r.program), e, r.program, r.entry, env.delivery)
  {
    hide Resolve, UsableProblem, Lost, DeliverMatch;
  }

  lemma FirstRequestIsBehind(c: Core, e: Event, p: Program, entry: Entry, env: DeliveryEnv, j: nat)
    requires c.state.mode.Fallback? && env.wroteFirst && NoneToNode(c)
    requires j < |DeliverMatch(c, e, p, entry, env).trace| && ToNode(DeliverMatch(c, e, p, entry, env).trace[j])
    ensures j > |c.trace|
  {
    hide DeliverMatch, Plan, AllSent, AnyStopped, CutoffMillis, Render;
    DeliveryTrace(c, e, p, entry, env);
    var plan, cutoff := Plan(p, entry.targets, env, 0), CutoffMillis(p.expiresAt);
    var first := c.state.(occurrence := Some(Executor.OccurrenceOf(e, plan, false)));
    var last := c.state.(occurrence := Some(Executor.OccurrenceOf(e, plan, !AnyStopped(plan, env, cutoff))));
    RequestIsBehindRecord(c, DeliverMatch(c, e, p, entry, env).trace, Some(Render(first)),
                          AllSent(plan, e.entryKey, env, cutoff),
                          if env.wroteLast then [Wrote(Some(Render(last)))] else [], j);
  }

  lemma DeliveryIsFor(c: Core, e: Event, p: Program, entry: Entry, env: DeliveryEnv)
    requires c.state.mode.Fallback? && env.wroteFirst && e.identityResolved
    ensures IsFor(DeliverMatch(c, e, p, entry, env).state.occurrence, e.entryKey)
  {
    hide DeliverMatch, Plan, AllSent, AnyStopped, CutoffMillis, Render, IdsOfPlan;
    DeliveryTrace(c, e, p, entry, env);
  }

  /** Once a callback has sent its first request, a crash anywhere behind it leaves the entry on record exactly if the
      record can be read back: what was there before the callback decides it. If not, a start begins as if nothing had
      been saved, and the entry is new to it. */
  lemma CrashForgetsIff(cfg: Config, c: Core, e: Event, env: ObserveEnv, j: nat, k: nat, now: int, monotonic: int)
    requires env.delivery.wroteFirst && k > j
    requires j < |Observe(cfg, c, e, env).trace| && ToNode(Observe(cfg, c, e, env).trace[j])
    ensures var d := DiskAfter(c.disk, Cut(Observe(cfg, c, e, env).trace, k));
            && (SavedFor(d, e.entryKey) <==> RecordFits(Decided(c, e, env), e, env))
            && (!RecordFits(Decided(c, e, env), e, env) ==> Restored(d, now, monotonic) == FreshCore(d, now, monotonic))
  {
    hide Decided, EntryBoundary, SavedFor, RecordFits, DiskAfter, FreshCore, Restored;
    DecidedSendsNothing(c, e, env);
    var before := Decided(c, e, env);
    assert Observe(cfg, c, e, env).trace[j] in Observe(cfg, c, e, env).trace;
    if (e.action.Start? || e.action.Playing?) && !SameOccurrence(before, e) {
      BoundaryRecordWhenCut(c.disk, cfg, Seen(before, e), e, env, j, k, now, monotonic);
      SeenIsServed(cfg, before, e, env);
    }
  }

  /* ---- A record that was never written ---- */

  /** Requests change nothing on disk, so cut among them the disk is as it was before, and behind the last write as
      that write left it. */
  lemma UnwrittenWhenCut(was: Disk, pre: seq<Effect>, sent: seq<Effect>, last: Option<Bytes>, wrote: bool, k: nat)
    requires (forall x :: x in sent ==> ToNode(x)) && k >= |pre|
    ensures var all := pre + sent + (if wrote then [Wrote(last)] else []);
            var d := DiskAfter(was, pre);
            DiskAfter(was, Cut(all, k)) == if wrote && k >= |all| then d.(file := last) else d
  {
    var tail := sent + (if wrote then [Wrote(last)] else []);
    var all := pre + sent + (if wrote then [Wrote(last)] else []);
    var d := DiskAfter(was, pre);
    assert all == pre + tail && Cut(all, k) == pre + Cut(tail, k - |pre|);
    DiskAfterAppend(was, pre, Cut(tail, k - |pre|));
    if wrote && k >= |all| {
      assert Cut(tail, k - |pre|) == sent + [Wrote(last)] && [Wrote(last)][1..] == [];
      RequestsChangeNothing(d, sent);
      DiskAfterAppend(d, sent, [Wrote(last)]);
    } else {
      var cut := Cut(tail, k - |pre|);
      assert |cut| <= |sent| && cut == sent[..|cut|];
      RequestsChangeNothing(d, cut);
    }
  }

  lemma UnwrittenTrace(c: Core, e: Event, p: Program, entry: Entry, env: DeliveryEnv)
    requires c.state.mode.Fallback? && !env.wroteFirst
    ensures var plan, cutoff := Plan(p, entry.targets, env, 0), CutoffMillis(p.expiresAt);
            var last := c.state.(occurrence := Some(Executor.OccurrenceOf(e, plan, !AnyStopped(plan, env, cutoff))));
            var d := DeliverMatch(c, e, p, entry, env);
            && d.trace == c.trace + AllSent(plan, e.entryKey, env, cutoff)
                          + (if env.wroteLast then [Wrote(Some(Render(last)))] else [])
            && last.mode.Fallback? && SameRecord(d.state, last)
  {
    hide Plan, AllSent, StartedCount, AnyStopped, FirstProblem, CutoffMillis, Executor.OccurrenceOf, Render;
    var sent := AllSent(Plan(p, entry.targets, env, 0), e.entryKey, env, CutoffMillis(p.expiresAt));
    assert c.trace + sent + [] == c.trace + sent;
  }

  /** Where the first write fails the requests go out all the same. Then a crash leaves the entry on record exactly as
      the callback found it, until the last write is through. */
  lemma UnrecordedForgetsIff(cfg: Config, c: Core, e: Event, env: ObserveEnv, j: nat, k: nat)
    requires CoreOk(c) && !env.delivery.wroteFirst && k > j
    requires j < |Observe(cfg, c, e, env).trace| && ToNode(Observe(cfg, c, e, env).trace[j])
    ensures var effects, d := Observe(cfg, c, e, env).trace, Decided(c, e, env);
            SavedFor(DiskAfter(c.disk, Cut(effects, k)), e.entryKey) <==>
            if env.delivery.wroteLast && k >= |effects| then RecordFits(d, e, env) else SavedFor(d.disk, e.entryKey)
  {
    hide Decided, EntryBoundary, SavedFor, RecordFits, DiskAfter, CoreOk, AlwaysOk;
    DecidedKeeps(c, e, env);
    DecidedSendsNothing(c, e, env);
    var before := Decided(c, e, env);
    assert Observe(cfg, c, e, env).trace[j] in Observe(cfg, c, e, env).trace;
    if (e.action.Start? || e.action.Playing?) && !SameOccurrence(before, e) {
      BoundaryUnrecordedWhenCut(c.disk, cfg, Seen(before, e), e, env, j, k);
      SeenIsServed(cfg, before, e, env);
    }
  }

  lemma BoundaryUnrecordedWhenCut(was: Disk, cfg: Config, c: Core, e: Event, env: ObserveEnv, j: nat, k: nat)
    requires DiskAfter(was, c.trace) == c.disk && !env.delivery.wroteFirst && NoneToNode(c) && k > j
    requires j < |EntryBoundary(cfg, c, e, env).trace| && ToNode(EntryBoundary(cfg, c, e, env).trace[j])
    ensures var effects := EntryBoundary(cfg, c, e, env).trace;
            SavedFor(DiskAfter(was, Cut(effects, k)), e.entryKey) <==>
            if env.delivery.wroteLast && k >= |effects| then RecordFits(c, e, env) else SavedFor(c.disk, e.entryKey)
  {
    assert EntryBoundary(cfg, c, e, env).trace[j] in EntryBoundary(cfg, c, e, env).trace;
    if !Served(cfg, c, e, env) {
      UnservedSendsNothing(cfg, c, e, env);
    }
    BoundaryIsRestorableIff(cfg, c, e, env);
    ServedDelivers(cfg, c, e, env);
    hide EntryBoundary, Served, Resolve, DeliverMatch, SavedFor, RecordFits, DiskAfter, Restorable, Plan, AllSent,
         AnyStopped, CutoffMillis, Render;
    var r := Resolve(HostOf(c, env), e.entryKey, e.at);
    var p, from := r.program, InFallback(c, e, r.program);
    var plan, cutoff := Plan(p, r.entry.targets, env.delivery, 0), CutoffMillis(p.expiresAt);
    var sent := AllSent(plan, e.entryKey, env.delivery, cutoff);
    var o := Executor.OccurrenceOf(e, plan, !AnyStopped(plan, env.delivery, cutoff));
    var last := from.state.(occurrence := Some(o));
    UnwrittenTrace(from, e, p, r.entry, env.delivery);
    SentIdsArePlanned(plan, e.entryKey, env.delivery, cutoff);
    UnwrittenWhenCut(was, c.trace, sent, Some(Render(last)), env.delivery.wroteLast, k);
    var full := DeliverMatch(from, e, p, r.entry, env.delivery);
    FoundIff(c.disk.(file := Some(Render(last))), full.state, last, e.entryKey, 0, 0);
  }
}
