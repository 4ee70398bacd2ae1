/** The fallback executor (native/adapters/shared/fallback_executor.h) as steps on one state: a tick of the background
    thread, one playlist callback, and a start from what is on disk. Every write and every request of a step is an
    effect in its trace, in order, so a crash is a trace cut short. */
module Executor {
  import opened Basics
  import opened Ordering
  import opened Rfc3339
  import opened FallbackState
  import opened FallbackProgram
  import OutageDetector
  import NodeDelivery

  const LOST_PROBE_INTERVAL_CAP := 10000
  const STATE_REPORT_INTERVAL := 10000

  datatype Config = Config(detector: OutageDetector.Config, probeInterval: int, restartSettle: int)

  datatype Action = Start | Playing | Stop | QueryNext | UnknownAction

  datatype Event = Event(
    action: Action, playlistName: Bytes, identityResolved: bool, entryKey: Bytes, playlistLoop: Option<int>, at: int)

  datatype Boundary = Boundary(identityResolved: bool, entryKey: Bytes, playlistLoop: Option<int>)

  datatype Effect =
    | Wrote(file: Option<Bytes>)
    | Sent(node: Bytes, executionId: Bytes, entryKey: Bytes, at: int)
    | Handed(node: Bytes, at: int)
    | Reported(state: State)
    | Installed(program: Program)

  /** A saved state that FPP has not confirmed yet, and when the plugin started. */
  datatype Waiting = Waiting(undecided: bool, since: int)

  /** The coordinator as the probes find it. */
  datatype Link = Link(
    detector: OutageDetector.Detector, reachable: bool, probedOnce: bool, lastProbeAt: int, token: Option<Bytes>)

  /** The state report: due now, due by the clock, and owed before any post. */
  datatype Reporting = Reporting(due: bool, nextAt: int, owed: bool)

  /** Hand-back step 3: a fetch is due, and the first one goes at once. */
  datatype FetchDebt = FetchDebt(due: bool, atOnce: bool)

  /** The entry last acted on, and a hand-back's order to forget it. */
  datatype Sight = Sight(last: Option<Boundary>, finished: bool, forget: bool)

  datatype Disk = Disk(file: Option<Bytes>, program: Option<Program>)

  /** The running plugin and the disk beneath it. The trace is what the current step has done so far. */
  datatype Core = Core(
    state: State, waiting: Waiting, link: Link, report: Reporting, debt: FetchDebt, sight: Sight, disk: Disk,
    trace: seq<Effect>)

  /* ---- What both threads use ---- */

  predicate Lost(cfg: Config, c: Core) {
    OutageDetector.ConfirmedLost(cfg.detector, c.link.detector)
  }

  predicate PostsSuspended(cfg: Config, c: Core) {
    !c.state.mode.Normal? || Lost(cfg, c) || c.report.owed
  }

  function Did(c: Core, e: Effect): Core {
    c.(trace := c.trace + [e])
  }

  function WithFile(c: Core, file: Option<Bytes>): Core {
    Did(c.(disk := c.disk.(file := file)), Wrote(file))
  }

  /** saveCurrentState: a normal state has no file; any other is written whole, or not at all. */
  function Saved(c: Core, wrote: bool): Core {
    if c.state.mode.Normal? then WithFile(c, None)
    else if wrote then WithFile(c, Some(Render(c.state)))
    else c
  }

  /** The cutoff of a saved state; one that cannot be read counts as passed. */
  predicate CutoffPassed(s: State, now: int) {
    match ParseEpochSeconds(s.cutoffAt)
    case None => true
    case Some(seconds) => now >= seconds * 1000
  }

  /** enterRestingAtCutoff. */
  function RestAtCutoff(c: Core, now: int, wrote: bool): Core {
    if c.state.mode.Fallback? && CutoffPassed(c.state, now)
    then Saved(c.(state := Rested(c.state, now), report := c.report.(due := true)), wrote)
    else c
  }

  function SendReport(c: Core, now: int): Core {
    Did(c.(report := c.report.(due := false, nextAt := now + STATE_REPORT_INTERVAL)), Reported(c.state))
  }

  function ReturnedToNormal(c: Core, now: int): Core {
    var silent := !c.link.reachable;
    c.(state := NormalSince(now), waiting := c.waiting.(undecided := false), debt := FetchDebt(true, true),
       report := c.report.(due := silent, owed := silent), sight := c.sight.(forget := true))
  }

  /** handBack, from a mode that is not normal. */
  function HandBack(c: Core, now: int, urlReadable: bool): Core {
    var d := Saved(ReturnedToNormal(c, now), true);
    if c.link.reachable && urlReadable then SendReport(d, now) else d
  }

  /** handBack where the file cannot be removed, which is passed over. */
  function HandBackOverFile(c: Core, now: int, urlReadable: bool): Core {
    var d := ReturnedToNormal(c, now);
    if c.link.reachable && urlReadable then SendReport(d, now) else d
  }

  /* ---- One tick ---- */

  datatype TickEnv = TickEnv(
    now: int, monotonic: int, token: Option<Bytes>, urlAtProbe: bool, reached: bool, urlLater: bool, wroteRest: bool,
    stopBeforeReport: bool, stopBeforeFetch: bool, fetched: Option<Program>, fetchReached: bool)

  predicate ProbeDue(cfg: Config, c: Core, now: int) {
    var capped := if cfg.probeInterval < LOST_PROBE_INTERVAL_CAP then cfg.probeInterval else LOST_PROBE_INTERVAL_CAP;
    var interval := if !c.state.mode.Normal? || Lost(cfg, c) then capped else cfg.probeInterval;
    !(c.link.probedOnce && now < c.link.lastProbeAt + interval && now >= c.link.lastProbeAt)
  }

  /** probe: a success after a failure makes a report due, and confirmed loss makes one owed before any post. */
  function Probed(cfg: Config, c: Core, reached: bool, now: int): Core {
    var d := OutageDetector.Recorded(c.link.detector, OutageDetector.Probe(reached, now));
    c.(link := c.link.(detector := d, reachable := reached),
       report := c.report.(due := c.report.due || (reached && !c.link.reachable),
                           owed := c.report.owed || OutageDetector.ConfirmedLost(cfg.detector, d)))
  }

  /** The part of a tick that may probe; a token not seen before makes a report due. */
  function ProbePart(cfg: Config, c: Core, env: TickEnv): Core {
    if !ProbeDue(cfg, c, env.now) then c
    else
      var d := c.(link := c.link.(lastProbeAt := env.now, probedOnce := true, token := env.token),
                  report := c.report.(due := c.report.due || env.token != c.link.token));
      if env.urlAtProbe then Probed(cfg, d, env.reached, env.now) else d
  }

  predicate ProbedNow(cfg: Config, c: Core, env: TickEnv) {
    ProbeDue(cfg, c, env.now) && env.urlAtProbe
  }

  predicate Settled(cfg: Config, c: Core, monotonic: int) {
    !c.state.mode.Normal? && c.waiting.undecided && monotonic - c.waiting.since >= cfg.restartSettle
  }

  /** FPP named no playlist for the whole settle window. */
  function SettlePart(cfg: Config, c: Core, env: TickEnv): Core {
    if Settled(cfg, c, env.monotonic) then HandBack(c, env.now, env.urlLater) else c
  }

  predicate ReportIsDue(c: Core, now: int) {
    c.link.token.Some? && (c.report.due || now >= c.report.nextAt || c.report.nextAt - now > STATE_REPORT_INTERVAL)
  }

  /** What is said to and asked of the coordinator while it answers: the report first, and a fetch only in normal. */
  function CoordinatorPart(c: Core, env: TickEnv, probedNow: bool): Core {
    var reportDue := ReportIsDue(c, env.now);
    var wanted := reportDue || (c.debt.due && c.state.mode.Normal?);
    if !c.link.reachable || env.stopBeforeReport || !(probedNow || (wanted && env.urlLater)) then c
    else FetchPart(ReportPart(c, env.now, reportDue), env, probedNow)
  }

  function ReportPart(c: Core, now: int, reportDue: bool): Core {
    var d := if reportDue then SendReport(c, now) else c;
    d.(report := d.report.(owed := false))
  }

  function FetchPart(c: Core, env: TickEnv, probedNow: bool): Core {
    var atOnce := c.debt.due && c.debt.atOnce;
    var d := c.(debt := c.debt.(atOnce := c.debt.atOnce && !c.debt.due));
    if d.state.mode.Normal? && !env.stopBeforeFetch && (probedNow || atOnce) then Fetched(d, env) else d
  }

  /** A fetch: perhaps a program to install, and perhaps the hand-back's fetch is done. */
  function Fetched(c: Core, env: TickEnv): Core {
    var d := c.(debt := c.debt.(due := c.debt.due && !env.fetchReached));
    match env.fetched
    case None => d
    case Some(p) => Did(d.(disk := d.disk.(program := Some(p))), Installed(p))
  }

  function Tick(cfg: Config, c: Core, env: TickEnv): Core {
    var probed := ProbePart(cfg, c.(trace := []), env);
    var rested := RestAtCutoff(probed, env.now, env.wroteRest);
    var settled := SettlePart(cfg, rested, env);
    CoordinatorPart(settled, env, ProbedNow(cfg, c, env))
  }

  /* ---- One callback ---- */

  /** What a delivery meets: an id and a signature for each target, or none; the nodes; and the disk. */
  datatype DeliveryEnv = DeliveryEnv(
    ids: nat -> Option<Bytes>, signs: nat -> bool, bodies: nat -> seq<int>, worlds: nat -> NodeDelivery.World,
    wroteFirst: bool, wroteLast: bool)

  datatype ObserveEnv = ObserveEnv(
    pinnedKey: bool, playerKey: Option<Bytes>, verifies: bool, urlReadable: bool, wroteRest: bool, wroteResume: bool,
    delivery: DeliveryEnv)

  function BoundaryOf(e: Event): Boundary {
    Boundary(e.identityResolved, e.entryKey, e.playlistLoop)
  }

  /** A repeated callback for the entry already playing is no new occurrence. */
  predicate SameOccurrence(c: Core, e: Event) {
    c.sight.last == Some(BoundaryOf(e)) && !c.sight.finished
  }

  function PersistOccurrence(c: Core, o: Occurrence, wrote: bool): Core {
    if !c.state.mode.Fallback? then c else Saved(c.(state := c.state.(occurrence := Some(o))), wrote)
  }

  /** resumeSavedState: an entry the restart interrupted is closed and not tried again. */
  function ResumeSaved(c: Core, e: Event, recorded: Option<Occurrence>, wrote: bool): Core {
    match recorded
    case None => c
    case Some(o) =>
      var d := if o.delivered then c else PersistOccurrence(c, o.(delivered := true), wrote);
      if e.identityResolved == o.identityResolved && e.entryKey == o.entryKey
      then d.(sight := d.sight.(last := Some(BoundaryOf(e)), finished := false))
      else d
  }

  /** A target that can be sent to, with the id its requests carry. */
  datatype Planned = Planned(index: nat, node: Bytes, executionId: Bytes)

  function TargetProblem(p: Program, t: Target, env: DeliveryEnv, i: nat): Problem {
    if t.address.None? then NoAddress
    else if p.generation.None? || t.catalogRevision.None? then IncompleteProgram
    else if env.ids(i).None? || !env.signs(i) then SigningFailed
    else NoProblem
  }

  /** The deliveries for the targets from i on. */
  function Plan(p: Program, targets: seq<Target>, env: DeliveryEnv, i: nat): seq<Planned>
    requires i <= |targets|
    decreases |targets| - i
  {
    if i == |targets| then []
    else if TargetProblem(p, targets[i], env, i).NoProblem?
    then [Planned(i, targets[i].nodeId, env.ids(i).value)] + Plan(p, targets, env, i + 1)
    else Plan(p, targets, env, i + 1)
  }

  function FirstProblem(p: Program, targets: seq<Target>, env: DeliveryEnv, i: nat): Problem
    requires i <= |targets|
    decreases |targets| - i
  {
    if i == |targets| then NoProblem
    else if TargetProblem(p, targets[i], env, i).NoProblem? then FirstProblem(p, targets, env, i + 1)
    else TargetProblem(p, targets[i], env, i)
  }

  function IdsOfPlan(plan: seq<Planned>): (ids: seq<NodeId>)
    ensures |ids| == |plan| && forall k :: 0 <= k < |plan| ==> ids[k] == NodeId(plan[k].node, plan[k].executionId)
  {
    if plan == [] then [] else [NodeId(plan[0].node, plan[0].executionId)] + IdsOfPlan(plan[1..])
  }

  function EffectOf(d: Planned, key: Bytes, r: NodeDelivery.Request): Effect {
    match r
    case Post(_, at) => Sent(d.node, d.executionId, key, at)
    case HandProgram(at) => Handed(d.node, at)
  }

  function EffectsOf(d: Planned, key: Bytes, requests: seq<NodeDelivery.Request>): (r: seq<Effect>)
    ensures |r| == |requests| && forall k :: 0 <= k < |r| ==> r[k] == EffectOf(d, key, requests[k])
  {
    if requests == [] then [] else [EffectOf(d, key, requests[0])] + EffectsOf(d, key, requests[1..])
  }

  function DeliveryOf(d: Planned, env: DeliveryEnv, cutoff: int): NodeDelivery.Delivery {
    NodeDelivery.Deliver(env.worlds(d.index), env.bodies(d.index), cutoff, NodeDelivery.START)
  }

  /** Every planned delivery, one node after another. */
  function AllSent(plan: seq<Planned>, key: Bytes, env: DeliveryEnv, cutoff: int): seq<Effect> {
    if plan == [] then []
    else EffectsOf(plan[0], key, DeliveryOf(plan[0], env, cutoff).requests) + AllSent(plan[1..], key, env, cutoff)
  }

  function StartedCount(plan: seq<Planned>, env: DeliveryEnv, cutoff: int): nat {
    if plan == [] then 0
    else (if DeliveryOf(plan[0], env, cutoff).result.outcome == NodeDelivery.AUTHORIZED then 1 else 0)
         + StartedCount(plan[1..], env, cutoff)
  }

  predicate AnyStopped(plan: seq<Planned>, env: DeliveryEnv, cutoff: int) {
    plan != [] && (DeliveryOf(plan[0], env, cutoff).result.outcome == NodeDelivery.STOPPED
                   || AnyStopped(plan[1..], env, cutoff))
  }

  function CutoffMillis(expiresAt: Bytes): int {
    match ParseEpochSeconds(expiresAt)
    case None => 0
    case Some(seconds) => seconds * 1000
  }

  function OccurrenceOf(e: Event, plan: seq<Planned>, delivered: bool): Occurrence {
    Occurrence(e.identityResolved, e.entryKey, e.playlistLoop, IdsOfPlan(plan), delivered)
  }

  function WithResult(c: Core, result: BoundaryResult, problem: Problem): Core {
    c.(state := c.state.(lastBoundary := result, lastProblem := problem))
  }

  /** deliverMatch: on disk first, then to the nodes, then on disk again. */
  function DeliverMatch(c: Core, e: Event, p: Program, entry: Entry, env: DeliveryEnv): Core {
    var plan := Plan(p, entry.targets, env, 0);
    var cutoff := CutoffMillis(p.expiresAt);
    var noted := PersistOccurrence(c, OccurrenceOf(e, plan, false), env.wroteFirst);
    var sent := noted.(trace := noted.trace + AllSent(plan, e.entryKey, env, cutoff));
    var closed := PersistOccurrence(sent, OccurrenceOf(e, plan, !AnyStopped(plan, env, cutoff)), env.wroteLast);
    var started := StartedCount(plan, env, cutoff);
    WithResult(closed,
               if started == |entry.targets| then Started else if started > 0 then StartedOnSomeNodes else NotStarted,
               if plan == [] then FirstProblem(p, entry.targets, env, 0) else NoProblem)
  }

  function HostOf(c: Core, env: ObserveEnv): Host {
    Host(env.pinnedKey, env.playerKey, c.disk.program, env.verifies)
  }

  /** What stands in the way of an entry, if anything; otherwise its match. */
  function BoundaryProblem(c: Core, e: Event, h: Host): Problem {
    var unusable := UsableProblem(h, e.at);
    if c.state.mode.Resting? then AtRest
    else if !unusable.NoProblem? then unusable
    else if !e.identityResolved then EntryNotIdentified
    else ProblemOf(Resolve(h, e.entryKey, e.at))
  }

  /** onEntryBoundary. */
  function EntryBoundary(cfg: Config, c: Core, e: Event, env: ObserveEnv): Core {
    var h := HostOf(c, env);
    var problem := BoundaryProblem(c, e, h);
    if c.state.mode.Normal? && !Lost(cfg, c) then c
    else if !problem.NoProblem? then
      if problem.EntryUnknown? then WithResult(c, NothingToStart, NoProblem) else WithResult(c, NotStarted, problem)
    else
      var r := Resolve(h, e.entryKey, e.at);
      if !r.Match? then c
      else
        var p := r.program;
        var d := if c.state.mode.Normal?
                 then c.(state := Entered(e.at, e.playlistName, p.packageId, p.revision, p.expiresAt),
                         report := c.report.(due := true))
                 else c;
        DeliverMatch(d, e, p, r.entry, env.delivery)
  }

  predicate EndsFallback(c: Core, e: Event) {
    !c.state.mode.Normal? && (e.action.Stop? || (e.playlistName != [] && e.playlistName != c.state.playlistName))
  }

  /** Up to the decision about a saved state and the boundary it was entered under. */
  function Decided(c: Core, e: Event, env: ObserveEnv): Core {
    var rested := RestAtCutoff(c.(trace := []), e.at, env.wroteRest);
    var ended := EndsFallback(rested, e);
    var resumed := rested.waiting.undecided && !ended && e.playlistName != [];
    var back := if ended then HandBack(rested, e.at, env.urlReadable)
                else if resumed then rested.(waiting := rested.waiting.(undecided := false)) else rested;
    var clear := Forgotten(back);
    if resumed then ResumeSaved(clear, e, rested.state.occurrence, env.wroteResume) else clear
  }

  /** After a hand-back the entry last acted on no longer counts. */
  function Forgotten(c: Core): Core {
    if c.sight.forget then c.(sight := Sight(None, false, false)) else c
  }

  function Acted(cfg: Config, c: Core, e: Event, env: ObserveEnv): Core {
    match e.action
    case Stop => c.(sight := c.sight.(last := None))
    case QueryNext => c.(sight := c.sight.(finished := true))
    case UnknownAction => c
    case _ =>
      if SameOccurrence(c, e) then c
      else EntryBoundary(cfg, Seen(c, e), e, env)
  }

  function Seen(c: Core, e: Event): Core {
    c.(sight := c.sight.(last := Some(BoundaryOf(e)), finished := false))
  }

  function Observe(cfg: Config, c: Core, e: Event, env: ObserveEnv): Core {
    Acted(cfg, Decided(c, e, env), e, env)
  }

  /** What observeEntryEvent returns: the callback's own posts to the coordinator are to be skipped. */
  predicate SkipsPosts(cfg: Config, c: Core, e: Event, env: ObserveEnv) {
    (EndsFallback(RestAtCutoff(c.(trace := []), e.at, env.wroteRest), e) && e.action.Stop?)
    || PostsSuspended(cfg, Observe(cfg, c, e, env))
  }

  /* ---- Starting ---- */

  function FreshCore(disk: Disk, now: int, monotonic: int): Core {
    Core(NormalSince(now), Waiting(false, monotonic), Link(OutageDetector.FRESH, false, false, 0, None),
         Reporting(true, 0, false), FetchDebt(false, false), Sight(None, false, false), disk, [])
  }

  /** restoreSavedState. */
  function Restored(disk: Disk, now: int, monotonic: int): Core {
    var c := FreshCore(disk, now, monotonic);
    var over := c.(debt := FetchDebt(true, false), report := Reporting(true, 0, true));
    match disk.file
    case None => c
    case Some(text) =>
      match ParseState(text)
      case NothingSaved => c
      case UnknownVersion => WithFile(over, None)
      case Loaded(saved) =>
        if CutoffPassed(saved, now) then Saved(over, true) else c.(state := saved, waiting := Waiting(true, monotonic))
  }
}
