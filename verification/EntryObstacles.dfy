/** What keeps an entry from being served (native/adapters/shared/fallback_executor.h:1178-1265), in terms of the clock,
    the keys and the program's own entries. */
module EntryObstacles {
  import opened Basics
  import opened Ordering
  import opened Rfc3339
  import opened Timestamps
  import NodeDelivery
  import opened FallbackState
  import opened FallbackProgram
  import opened Executor
  import ExecutorSafety

  /* ---- Expiry ---- */

  /** A time in UTC, to the second, that is still to come. */
  ghost predicate LiesAhead(text: Bytes, now: int) {
    |text| == 20 && text[19] == 0x5A && exists t :: IsStampText(text, t) && now < 1000 * Instant(t, 0)
  }

  lemma CurrentIff(p: Program, now: int)
    ensures !Expired(p, now) <==> LiesAhead(p.expiresAt, now)
  {
    hide ParseUtc, Instant;
    var s := p.expiresAt;
    if ParseUtc(s).Some? {
      StrictlyReadIff(s, ParseUtc(s).value);
    }
    forall t | |s| == 20 && s[19] == 0x5A && IsStampText(s, t)
      ensures ParseUtc(s) == Some(Instant(t, 0))
    {
      StrictlyReadIff(s, Instant(t, 0));
    }
  }

  /** A time in any zone, with or without a fraction, whose whole second is still to come. */
  ghost predicate IsToCome(text: Bytes, now: int) {
    exists t, i, ahead :: IsTimestamp(text, t, i, ahead) && now < 1000 * Instant(t, ahead)
  }

  lemma NotOverIff(s: State, now: int)
    ensures !CutoffPassed(s, now) <==> IsToCome(s.cutoffAt, now)
  {
    hide ParseEpochSeconds, Instant, IsZone, IsFraction;
    var text := s.cutoffAt;
    if ParseEpochSeconds(text).Some? {
      ReadIff(text, ParseEpochSeconds(text).value);
    }
    forall t, i, ahead | IsTimestamp(text, t, i, ahead)
      ensures ParseEpochSeconds(text) == Some(Instant(t, ahead))
    {
      SpelledIsRead(text, t, i, ahead);
    }
  }

  /** A delivery's cutoff is the program's expiry. */
  lemma CutoffIs(text: Bytes, t: Stamp, i: nat, ahead: int)
    requires IsTimestamp(text, t, i, ahead)
    ensures CutoffMillis(text) == 1000 * Instant(t, ahead)
  {
    hide ParseEpochSeconds, Instant, IsZone, IsFraction;
    SpelledIsRead(text, t, i, ahead);
  }

  /* ---- The program's entries ---- */

  predicate Named(p: Program, key: Bytes, i: nat) {
    i < |p.entries| && p.entries[i].entryKey == key
  }

  /** One entry carries the key, and it stands at i. */
  ghost predicate OnlyOne(p: Program, key: Bytes, i: nat) {
    Named(p, key, i) && forall j :: Named(p, key, j) ==> j == i
  }

  ghost predicate Nowhere(p: Program, key: Bytes) {
    forall i :: !Named(p, key, i)
  }

  ghost predicate Repeated(p: Program, key: Bytes) {
    exists i, j :: i < j && Named(p, key, i) && Named(p, key, j)
  }

  lemma {:induction false} MatchesAre(entries: seq<Entry>, key: Bytes)
    ensures var found := EntriesFor(entries, key);
            && (found == [] <==> forall i :: 0 <= i < |entries| ==> entries[i].entryKey != key)
            && (|found| > 1 <==>
                  exists i, j :: 0 <= i < j < |entries| && entries[i].entryKey == key == entries[j].entryKey)
            && (found != [] ==> exists i :: 0 <= i < |entries| && entries[i] == found[0] && entries[i].entryKey == key)
  {
    if entries == [] {
    } else {
      MatchesAre(entries[1..], key);
    }
  }

  /** What an entry key comes to in a program. */
  lemma ResolvedIn(p: Program, key: Bytes)
    ensures ResolveIn(p, key) == UnknownEntry <==> Nowhere(p, key)
    ensures ResolveIn(p, key) == AmbiguousEntry <==> Repeated(p, key)
    ensures ResolveIn(p, key) == ProgramFailedReverification <==>
              exists i: nat :: OnlyOne(p, key, i) && !p.entries[i].complete
    ensures ResolveIn(p, key) == NoActivatableTarget <==>
              exists i: nat :: OnlyOne(p, key, i) && p.entries[i].complete && !AnyLive(p.entries[i].targets)
    ensures forall e :: ResolveIn(p, key) == Match(p, e) <==>
              exists i: nat :: OnlyOne(p, key, i) && p.entries[i] == e && e.complete && AnyLive(e.targets)
  {
    hide EntriesFor, AnyLive;
    MatchesAre(p.entries, key);
    var found := EntriesFor(p.entries, key);
    if |found| == 0 {
      assert Nowhere(p, key);
    } else {
      var i :| 0 <= i < |p.entries| && p.entries[i] == found[0] && p.entries[i].entryKey == key;
      assert Named(p, key, i);
      if |found| == 1 {
        assert OnlyOne(p, key, i);
        assert !Repeated(p, key);
      } else {
        var j, k :| 0 <= j < k < |p.entries| && p.entries[j].entryKey == key == p.entries[k].entryKey;
        assert Named(p, key, j) && Named(p, key, k);
        assert Repeated(p, key);
      }
    }
  }

  /** Where the key is empty, an incomplete entry makes the whole program count as spoiled: it is the key the program is
      first looked up with. */
  ghost predicate SpoiledByBlank(p: Program) {
    exists i: nat :: OnlyOne(p, [], i) && !p.entries[i].complete
  }

  /* ---- The program ---- */

  /** A program that verifies and has not expired. */
  ghost predicate Current(h: Host, now: int) {
    h.pinnedKey && h.program.Some? && h.verifies && LiesAhead(h.program.value.expiresAt, now)
  }

  /** And that lets this player activate. */
  ghost predicate Usable(h: Host, now: int) {
    && Current(h, now) && !SpoiledByBlank(h.program.value)
    && h.playerKey == Some(h.program.value.executorKey) && h.program.value.rulesKnown
  }

  /** Why a program cannot be used, exactly. */
  lemma UsableIff(h: Host, now: int)
    ensures var problem := UsableProblem(h, now); var installed := h.pinnedKey && h.program.Some?;
            var trusted := Current(h, now) && !SpoiledByBlank(h.program.value);
            && (problem == NoProblem <==> Usable(h, now))
            && (problem == NoCoordinatorKey <==> !h.pinnedKey)
            && (problem == NoProgram <==> h.pinnedKey && h.program.None?)
            && (problem == ProgramNotVerified <==> installed && (!h.verifies || (Current(h, now) && !trusted)))
            && (problem == PlanExpired <==> installed && h.verifies && !Current(h, now))
            && (problem == NoPlayerKey <==> trusted && h.playerKey.None?)
            && (problem == PlayerKeyNotInProgram <==>
                  trusted && h.playerKey.Some? && h.playerKey.value != h.program.value.executorKey)
            && (problem == RulesUnknown <==>
                  trusted && h.playerKey == Some(h.program.value.executorKey) && !h.program.value.rulesKnown)
  {
    hide Expired, LiesAhead, ResolveIn, OnlyOne, Nowhere, Repeated, AnyLive;
    if h.program.Some? {
      CurrentIff(h.program.value, now);
      ResolvedIn(h.program.value, []);
      ResolvedInIsOneOf(h.program.value, []);
    }
  }

  lemma ResolvedInIsOneOf(p: Program, key: Bytes)
    ensures var r := ResolveIn(p, key);
            r.UnknownEntry? || r.AmbiguousEntry? || r.ProgramFailedReverification? || r.NoActivatableTarget?
            || (r.Match? && r.program == p)
  {
  }

  /** The problem an identified entry has in a program that can be used. */
  ghost predicate Obstructs(p: Program, e: Event, h: Host, problem: Problem) {
    var key := e.entryKey;
    && (problem == EntryUnknown <==> Nowhere(p, key))
    && (problem == EntryAmbiguous <==> Repeated(p, key))
    && (problem == ProgramNotVerified <==> exists i: nat :: OnlyOne(p, key, i) && !p.entries[i].complete)
    && (problem == NoTarget <==>
          exists i: nat :: OnlyOne(p, key, i) && p.entries[i].complete && !AnyLive(p.entries[i].targets))
    && (problem == NoProblem <==>
          exists i: nat :: OnlyOne(p, key, i) && p.entries[i].complete && AnyLive(p.entries[i].targets)
                           && Resolve(h, key, e.at) == Match(p, p.entries[i]))
  }

  lemma Obstructed(p: Program, e: Event, h: Host)
    requires Resolve(h, e.entryKey, e.at) == ResolveIn(p, e.entryKey)
    ensures Obstructs(p, e, h, ProblemOf(Resolve(h, e.entryKey, e.at)))
  {
    hide ResolveIn, Resolve, OnlyOne, Nowhere, Repeated, AnyLive;
    ResolvedIn(p, e.entryKey);
    ResolvedInIsOneOf(p, e.entryKey);
    var r := ResolveIn(p, e.entryKey);
    if r.Match? {
      assert r == Match(p, r.entry);
    }
  }

  /** What stands in the way of an entry, exactly; and with nothing in the way it is the one entry that carries the
      key. */
  lemma ObstacleIff(c: Core, e: Event, h: Host)
    ensures var problem := BoundaryProblem(c, e, h); var resting := c.state.mode.Resting?;
            && (problem == AtRest <==> resting)
            && (!resting && !Usable(h, e.at) ==> problem == UsableProblem(h, e.at) != NoProblem)
            && (!resting && Usable(h, e.at) ==>
                  if !e.identityResolved then problem == EntryNotIdentified
                  else Obstructs(h.program.value, e, h, problem))
  {
    hide Usable, Resolve, Obstructs;
    UsableIff(h, e.at);
    if Usable(h, e.at) {
      UsableIsCurrent(h, e.at);
      Obstructed(h.program.value, e, h);
    }
  }

  lemma UsableIsCurrent(h: Host, now: int)
    requires Usable(h, now)
    ensures h.program.Some?
    ensures forall key :: Resolve(h, key, now) == ResolveIn(h.program.value, key)
  {
    hide ResolveIn;
    CurrentIff(h.program.value, now);
  }

  /* ---- Its targets ---- */

  /** A request for this target can be built and signed. */
  predicate CanBeSent(p: Program, targets: seq<Target>, env: DeliveryEnv, i: nat) {
    && i < |targets| && targets[i].address.Some? && p.generation.Some? && targets[i].catalogRevision.Some?
    && env.ids(i).Some? && env.signs(i)
  }

  lemma TargetProblemIff(p: Program, targets: seq<Target>, env: DeliveryEnv, i: nat)
    requires i < |targets|
    ensures var problem := TargetProblem(p, targets[i], env, i); var t := targets[i];
            && (problem == NoProblem <==> CanBeSent(p, targets, env, i))
            && (problem == NoAddress <==> t.address.None?)
            && (problem == IncompleteProgram <==> t.address.Some? && (p.generation.None? || t.catalogRevision.None?))
            && (problem == SigningFailed <==> t.address.Some? && p.generation.Some? && t.catalogRevision.Some?
                                              && (env.ids(i).None? || !env.signs(i)))
  {
  }

  /** How the delivery to a target ended. */
  function EndOf(env: DeliveryEnv, i: nat, cutoff: int): NodeDelivery.Word {
    NodeDelivery.Deliver(env.worlds(i), env.bodies(i), cutoff, NodeDelivery.START).result.outcome
  }

  predicate Ended(p: Program, targets: seq<Target>, env: DeliveryEnv, i: nat, cutoff: int, word: NodeDelivery.Word) {
    CanBeSent(p, targets, env, i) && EndOf(env, i, cutoff) == word
  }

  lemma {:induction false} PlanCounts(p: Program, targets: seq<Target>, env: DeliveryEnv, cutoff: int, k: nat)
    requires k <= |targets|
    ensures var plan := Plan(p, targets, env, k); var started := StartedCount(plan, env, cutoff);
            && started <= |targets| - k
            && (started == |targets| - k <==>
                  forall i: nat :: k <= i < |targets| ==> Ended(p, targets, env, i, cutoff, "authorized"))
            && (started == 0 <==>
                  forall i: nat :: k <= i < |targets| ==> !Ended(p, targets, env, i, cutoff, "authorized"))
            && (AnyStopped(plan, env, cutoff) <==>
                  exists i: nat :: k <= i < |targets| && Ended(p, targets, env, i, cutoff, "plugin-stopping"))
            && (plan == [] <==> forall i: nat :: k <= i < |targets| ==> !CanBeSent(p, targets, env, i))
    decreases |targets| - k
  {
    hide TargetProblem, CanBeSent, EndOf, Plan, StartedCount, AnyStopped;
    if k == |targets| {
      NothingPlanned(p, targets, env, cutoff);
    } else {
      PlanCounts(p, targets, env, cutoff, k + 1);
      TargetProblemIff(p, targets, env, k);
      PlanUnfolds(p, targets, env, cutoff, k);
      assert Ended(p, targets, env, k, cutoff, "authorized") <==>
             CanBeSent(p, targets, env, k) && EndOf(env, k, cutoff) == "authorized";
      assert Ended(p, targets, env, k, cutoff, "plugin-stopping") <==>
             CanBeSent(p, targets, env, k) && EndOf(env, k, cutoff) == "plugin-stopping";
    }
  }

  lemma NothingPlanned(p: Program, targets: seq<Target>, env: DeliveryEnv, cutoff: int)
    ensures var plan := Plan(p, targets, env, |targets|);
            plan == [] && StartedCount(plan, env, cutoff) == 0 && !AnyStopped(plan, env, cutoff)
  {
  }

  /** The plan from k on: its target, if that can be sent to, and the rest. */
  lemma PlanUnfolds(p: Program, targets: seq<Target>, env: DeliveryEnv, cutoff: int, k: nat)
    requires k < |targets|
    ensures var plan, rest := Plan(p, targets, env, k), Plan(p, targets, env, k + 1);
            && (!CanBeSent(p, targets, env, k) ==> plan == rest)
            && (CanBeSent(p, targets, env, k) ==>
                  && plan != []
                  && StartedCount(plan, env, cutoff) ==
                     (if EndOf(env, k, cutoff) == "authorized" then 1 else 0) + StartedCount(rest, env, cutoff)
                  && (AnyStopped(plan, env, cutoff) <==>
                        EndOf(env, k, cutoff) == "plugin-stopping" || AnyStopped(rest, env, cutoff)))
  {
    hide TargetProblem, CanBeSent, NodeDelivery.Deliver;
    TargetProblemIff(p, targets, env, k);
    var plan := Plan(p, targets, env, k);
    if CanBeSent(p, targets, env, k) {
      assert plan[0].index == k && plan[1..] == Plan(p, targets, env, k + 1);
    }
  }

  lemma FirstProblemIs(p: Program, targets: seq<Target>, env: DeliveryEnv)
    requires targets != [] && !CanBeSent(p, targets, env, 0)
    ensures FirstProblem(p, targets, env, 0) == TargetProblem(p, targets[0], env, 0)
  {
    TargetProblemIff(p, targets, env, 0);
  }

  lemma DeliveryState(c: Core, e: Event, p: Program, entry: Entry, env: DeliveryEnv)
    requires c.state.mode.Fallback?
    ensures var plan, cutoff := Plan(p, entry.targets, env, 0), CutoffMillis(p.expiresAt);
            var started := StartedCount(plan, env, cutoff);
            DeliverMatch(c, e, p, entry, env).state ==
              c.state.(occurrence := Some(Executor.OccurrenceOf(e, plan, !AnyStopped(plan, env, cutoff))),
                       lastBoundary := if started == |entry.targets| then Started
                                       else if started > 0 then StartedOnSomeNodes else NotStarted,
                       lastProblem := if plan == [] then FirstProblem(p, entry.targets, env, 0) else NoProblem)
  {
    hide Plan, StartedCount, AnyStopped, AllSent, FirstProblem, CutoffMillis, Executor.OccurrenceOf, PersistOccurrence;
    var plan, cutoff := Plan(p, entry.targets, env, 0), CutoffMillis(p.expiresAt);
    var o := Executor.OccurrenceOf(e, plan, false);
    var noted := PersistOccurrence(c, o, env.wroteFirst);
    ExecutorSafety.PersistTouches(c, o, env.wroteFirst);
    ExecutorSafety.PersistTouches(noted.(trace := noted.trace + AllSent(plan, e.entryKey, env, cutoff)),
                                  Executor.OccurrenceOf(e, plan, !AnyStopped(plan, env, cutoff)), env.wroteLast);
  }

  /** What a delivery leaves in the state: started if every target authorized it, on some nodes if one did, and the
      occurrence on record, finished unless a delivery was cut short by the plugin's stop. */
  ghost predicate Leaves(s: State, e: Event, p: Program, targets: seq<Target>, env: DeliveryEnv) {
    var cutoff, n := CutoffMillis(p.expiresAt), |targets|;
    && (s.lastBoundary == Started <==> forall i: nat :: i < n ==> Ended(p, targets, env, i, cutoff, "authorized"))
    && (s.lastBoundary == NotStarted <==> forall i: nat :: i < n ==> !Ended(p, targets, env, i, cutoff, "authorized"))
    && s.lastBoundary in {Started, StartedOnSomeNodes, NotStarted}
    && (n > 0 ==>
          s.lastProblem == if exists i: nat :: CanBeSent(p, targets, env, i) then NoProblem
                           else TargetProblem(p, targets[0], env, 0))
    && s.occurrence.Some?
    && s.occurrence.value.identityResolved == e.identityResolved && s.occurrence.value.entryKey == e.entryKey
    && s.occurrence.value.playlistLoop == e.playlistLoop
    && (s.occurrence.value.delivered <==>
          forall i: nat :: i < n ==> !Ended(p, targets, env, i, cutoff, "plugin-stopping"))
  }

  lemma DeliveryLeaves(c: Core, e: Event, p: Program, entry: Entry, env: DeliveryEnv)
    requires c.state.mode.Fallback? && entry.targets != []
    ensures Leaves(DeliverMatch(c, e, p, entry, env).state, e, p, entry.targets, env)
  {
    hide Plan, StartedCount, AnyStopped, DeliverMatch, Ended, CanBeSent, TargetProblem, FirstProblem, CutoffMillis,
         IdsOfPlan;
    DeliveryState(c, e, p, entry, env);
    PlanCounts(p, entry.targets, env, CutoffMillis(p.expiresAt), 0);
    if exists i: nat :: CanBeSent(p, entry.targets, env, i) {
      var i: nat :| CanBeSent(p, entry.targets, env, i);
      SentIsTarget(p, entry.targets, env, i);
    } else {
      FirstProblemIs(p, entry.targets, env);
    }
  }

  lemma SentIsTarget(p: Program, targets: seq<Target>, env: DeliveryEnv, i: nat)
    requires CanBeSent(p, targets, env, i)
    ensures i < |targets|
  {
  }

  /** What an entry boundary comes to. In normal without confirmed loss the entry is the coordinator's. Otherwise an
      obstacle is put down, an entry the program does not know as nothing to start; and with none in the way the one
      entry that carries the key is delivered, in the fallback entered here and now if there was none. */
  lemma BoundaryComesTo(cfg: Config, c: Core, e: Event, env: ObserveEnv)
    ensures var problem, d := BoundaryProblem(c, e, HostOf(c, env)), EntryBoundary(cfg, c, e, env);
            var idle := c.state.mode.Normal? && !Lost(cfg, c);
            && (idle ==> d == c)
            && (!idle && problem == EntryUnknown ==>
                  d == c.(state := c.state.(lastBoundary := NothingToStart, lastProblem := NoProblem)))
            && (!idle && problem !in {NoProblem, EntryUnknown} ==>
                  d == c.(state := c.state.(lastBoundary := NotStarted, lastProblem := problem)))
            && (!idle && problem == NoProblem ==> c.disk.program.Some? && Serves(c, d, e, c.disk.program.value, env))
  {
    hide BoundaryProblem, Lost, Resolve, Leaves, DeliverMatch, OnlyOne, AnyLive, Obstructs;
    var h := HostOf(c, env);
    ObstacleIff(c, e, h);
    if BoundaryProblem(c, e, h) == NoProblem && !(c.state.mode.Normal? && !Lost(cfg, c)) {
      BoundaryServes(cfg, c, e, env);
    }
  }

  ghost predicate Serves(c: Core, d: Core, e: Event, p: Program, env: ObserveEnv) {
    && (exists i: nat :: OnlyOne(p, e.entryKey, i) && Leaves(d.state, e, p, p.entries[i].targets, env.delivery))
    && d.state.mode == Fallback
    && if c.state.mode.Fallback? then ExecutorSafety.SameSpell(d.state, c.state)
       else d.state.sinceMillis == e.at && d.state.playlistName == e.playlistName && d.state.packageId == p.packageId
            && d.state.packageRevision == p.revision && d.state.cutoffAt == p.expiresAt
  }

  lemma BoundaryServes(cfg: Config, c: Core, e: Event, env: ObserveEnv)
    requires BoundaryProblem(c, e, HostOf(c, env)) == NoProblem && !(c.state.mode.Normal? && !Lost(cfg, c))
    ensures c.disk.program.Some? && Serves(c, EntryBoundary(cfg, c, e, env), e, c.disk.program.value, env)
  {
    hide Lost, Leaves, AnyLive, EntryBoundary, DeliverMatch, Resolve, BoundaryProblem, Usable;
    var h := HostOf(c, env);
    ObstacleIff(c, e, h);
    UsableIsCurrent(h, e.at);
    var p := c.disk.program.value;
    var i: nat :| OnlyOne(p, e.entryKey, i) && p.entries[i].complete && AnyLive(p.entries[i].targets)
                  && Resolve(h, e.entryKey, e.at) == Match(p, p.entries[i]);
    LiveIsSome(p.entries[i].targets);
    MatchIsDelivered(cfg, c, e, env, p.entries[i]);
    DeliveryLeaves(Opened(c, e, p), e, p, p.entries[i], env.delivery);
    DeliveryKeepsSpell(Opened(c, e, p), e, p, p.entries[i], env.delivery);
  }

  /** Fallback, entered here and now if there was none. */
  function Opened(c: Core, e: Event, p: Program): Core {
    if c.state.mode.Normal?
    then c.(state := Entered(e.at, e.playlistName, p.packageId, p.revision, p.expiresAt),
            report := c.report.(due := true))
    else c
  }

  lemma MatchIsDelivered(cfg: Config, c: Core, e: Event, env: ObserveEnv, entry: Entry)
    requires BoundaryProblem(c, e, HostOf(c, env)) == NoProblem && !(c.state.mode.Normal? && !Lost(cfg, c))
    requires c.disk.program.Some? && Resolve(HostOf(c, env), e.entryKey, e.at) == Match(c.disk.program.value, entry)
    ensures EntryBoundary(cfg, c, e, env) ==
            DeliverMatch(Opened(c, e, c.disk.program.value), e, c.disk.program.value, entry, env.delivery)
  {
    hide Lost, DeliverMatch, Resolve, BoundaryProblem;
  }

  lemma DeliveryKeepsSpell(c: Core, e: Event, p: Program, entry: Entry, env: DeliveryEnv)
    requires c.state.mode.Fallback?
    ensures var s := DeliverMatch(c, e, p, entry, env).state;
            s.mode.Fallback? && ExecutorSafety.SameSpell(s, c.state) && s.sinceMillis == c.state.sinceMillis
  {
    hide DeliverMatch, Plan, StartedCount, AnyStopped, FirstProblem, CutoffMillis, Executor.OccurrenceOf;
    DeliveryState(c, e, p, entry, env);
  }

  lemma LiveIsSome(targets: seq<Target>)
    requires AnyLive(targets)
    ensures targets != []
  {
  }
}
