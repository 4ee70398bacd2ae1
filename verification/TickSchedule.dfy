/** When a tick speaks to the coordinator (native/adapters/shared/fallback_executor.h:417-486): its probes and its
    reports, in plain times. */
module TickSchedule {
  import opened Basics
  import OutageDetector
  import opened Executor

  /** Every interval; while the coordinator is lost, or its shows are being stood in for, every ten seconds at least. */
  function ProbeGap(cfg: Config, c: Core): int {
    if c.state.mode.Normal? && !Lost(cfg, c) then cfg.probeInterval else Min(cfg.probeInterval, 10000)
  }

  /** A probe is due if there was none yet, the gap has gone by, or the clock has been set back. */
  lemma ProbeDueIff(cfg: Config, c: Core, now: int)
    ensures ProbeDue(cfg, c, now) <==>
              !c.link.probedOnce || now - c.link.lastProbeAt >= ProbeGap(cfg, c) || now < c.link.lastProbeAt
  {
    hide Lost;
  }

  /** A tick probes exactly if a probe is due and the coordinator's address can be read, and the detector has seen the
      outcome; the time of the last probe moves where one was due. What then makes a report due: a token not seen
      before, or an answer after none; and one is owed before any post while the loss is confirmed. */
  lemma TickProbesIff(cfg: Config, c: Core, env: TickEnv)
    ensures var link := Tick(cfg, c, env).link; var due := ProbeDue(cfg, c, env.now);
            && (due ==> link.probedOnce && link.lastProbeAt == env.now && link.token == env.token)
            && (!due ==> link == c.link)
            && (due && env.urlAtProbe ==>
                  link.reachable == env.reached
                  && link.detector ==
                     OutageDetector.Recorded(c.link.detector, OutageDetector.Probe(env.reached, env.now)))
            && (due && !env.urlAtProbe ==> link.reachable == c.link.reachable && link.detector == c.link.detector)
            && var report := ProbePart(cfg, c.(trace := []), env).report; var probes := due && env.urlAtProbe;
            && (report.due <==> c.report.due || (due && env.token != c.link.token)
                                || (probes && env.reached && !c.link.reachable))
            && (report.owed <==> c.report.owed || (probes && OutageDetector.ConfirmedLost(cfg.detector, link.detector)))
            && report.nextAt == c.report.nextAt
  {
    hide RestAtCutoff, SettlePart, CoordinatorPart, OutageDetector.ConfirmedLost;
    LaterPartsKeepLink(cfg, ProbePart(cfg, c.(trace := []), env), env, ProbedNow(cfg, c, env));
  }

  lemma LaterPartsKeepLink(cfg: Config, c: Core, env: TickEnv, probedNow: bool)
    ensures var rested := RestAtCutoff(c, env.now, env.wroteRest);
            CoordinatorPart(SettlePart(cfg, rested, env), env, probedNow).link == c.link
  {
    hide CutoffPassed, Lost, RestAtCutoff, SettlePart, CoordinatorPart;
    var rested := RestAtCutoff(c, env.now, env.wroteRest);
    RestKeepsLink(c, env.now, env.wroteRest);
    SettleKeepsLink(cfg, rested, env);
    CoordinatorKeepsLink(SettlePart(cfg, rested, env), env, probedNow);
  }

  lemma RestKeepsLink(c: Core, now: int, wrote: bool)
    ensures RestAtCutoff(c, now, wrote).link == c.link
  {
  }

  lemma SettleKeepsLink(cfg: Config, c: Core, env: TickEnv)
    ensures SettlePart(cfg, c, env).link == c.link
  {
  }

  lemma CoordinatorKeepsLink(c: Core, env: TickEnv, probedNow: bool)
    ensures CoordinatorPart(c, env, probedNow).link == c.link
  {
  }

  /** A report is due with a pairing token: for a cause, or ten seconds after the last one, or with the clock set
      back. */
  predicate WantsReport(c: Core, now: int) {
    c.link.token.Some? && (c.report.due || now >= c.report.nextAt || c.report.nextAt - now > 10000)
  }

  predicate Speaks(c: Core, env: TickEnv, probedNow: bool) {
    var wanted := WantsReport(c, env.now) || (c.debt.due && c.state.mode.Normal?);
    c.link.reachable && !env.stopBeforeReport && (probedNow || (wanted && env.urlLater))
  }

  /** A fetch goes out in normal only: with every probe, and once by itself after a hand-back. */
  predicate Fetches(c: Core, env: TickEnv, probedNow: bool) {
    && Speaks(c, env, probedNow) && c.state.mode.Normal? && !env.stopBeforeFetch
    && (probedNow || (c.debt.due && c.debt.atOnce))
  }

  /** What a tick says to a coordinator that answers, and what that changes: the report first, then the fetch. */
  lemma CoordinatorPartIs(c: Core, env: TickEnv, probedNow: bool)
    ensures var d := CoordinatorPart(c, env, probedNow);
            var reports := Speaks(c, env, probedNow) && WantsReport(c, env.now);
            var fetches := Fetches(c, env, probedNow);
            var installs := fetches && env.fetched.Some?;
            && d.trace == c.trace + (if reports then [Reported(c.state)] else [])
                          + (if installs then [Installed(env.fetched.value)] else [])
            && d.state == c.state && d.disk.file == c.disk.file
            && d.disk.program == (if installs then env.fetched else c.disk.program)
            && (if reports then !d.report.due && d.report.nextAt == env.now + 10000
                else d.report.due == c.report.due && d.report.nextAt == c.report.nextAt)
            && (d.report.owed <==> c.report.owed && !Speaks(c, env, probedNow))
            && (d.debt.due <==> c.debt.due && !(fetches && env.fetchReached))
            && (d.debt.atOnce <==> c.debt.atOnce && !(Speaks(c, env, probedNow) && c.debt.due))
  {
  }

  /** So without a cause two reports lie ten seconds apart, unless the clock is set back. */
  lemma ReportsLieApart(c: Core, at: int, now: int)
    requires c.link.token.Some?
    ensures ReportIsDue(SendReport(c, at), now) <==> now >= at + 10000 || now < at
  {
  }
}
