/** What a start, a hand-back, the cutoff and a resumption leave (native/adapters/shared/fallback_executor.h), part by
    part. */
module ExecutorModes {
  import opened Basics
  import OutageDetector
  import FallbackProgram
  import opened FallbackState
  import opened Executor

  /** Normal, with nothing left of a fallback. */
  ghost predicate IsNormal(s: State, since: int) {
    && s.mode == Normal && s.sinceMillis == since && s.occurrence == None
    && s.playlistName == [] && s.packageId == [] && s.packageRevision == [] && s.cutoffAt == []
    && s.lastBoundary == NothingYet && s.lastProblem == FallbackProgram.NoProblem
  }

  /** A hand-back returns to normal and removes the file. The coordinator is told at once if it answers and its address
      can be read; where it does not answer a report is owed before any post. A fetch is due at once, and the entry last
      acted on is forgotten. */
  lemma HandBackMeans(c: Core, now: int, urlReadable: bool)
    ensures var d := HandBack(c, now, urlReadable); var told := c.link.reachable && urlReadable;
            && IsNormal(d.state, now) && d.disk == Disk(None, c.disk.program)
            && !d.waiting.undecided && d.waiting.since == c.waiting.since
            && d.debt == FetchDebt(true, true) && d.link == c.link
            && d.sight.forget && d.sight.last == c.sight.last && d.sight.finished == c.sight.finished
            && d.trace == c.trace + [Wrote(None)] + (if told then [Reported(d.state)] else [])
            && (d.report.due <==> !c.link.reachable) && (d.report.owed <==> !c.link.reachable)
            && d.report.nextAt == if told then now + 10000 else c.report.nextAt
  {
  }

  /** At the cutoff a fallback rests: from now on, as what it was, and with a report due. Nothing else rests. */
  lemma RestMeans(c: Core, now: int, wrote: bool)
    ensures var d := RestAtCutoff(c, now, wrote);
            if c.state.mode.Fallback? && CutoffPassed(c.state, now) then
              && d.state == c.state.(mode := Resting, sinceMillis := now)
              && d.report == Reporting(true, c.report.nextAt, c.report.owed)
              && d.disk.program == c.disk.program
              && (if wrote then d.disk.file == Some(Render(d.state)) && d.trace == c.trace + [Wrote(d.disk.file)]
                  else d.disk.file == c.disk.file && d.trace == c.trace)
              && d.link == c.link && d.waiting == c.waiting && d.debt == c.debt && d.sight == c.sight
            else d == c
  {
    hide CutoffPassed, Render;
  }

  /** A start takes up what was saved and can still be gone on with, and waits for FPP to name a playlist. What is over,
      or of another version, is removed, and a report is owed before any post; with nothing to read it is normal. */
  lemma StartMeans(disk: Disk, now: int, monotonic: int)
    ensures var c := Restored(disk, now, monotonic);
            var read := if disk.file.None? then NothingSaved else ParseState(disk.file.value);
            var resumes := read.Loaded? && !CutoffPassed(read.state, now);
            var over := read.UnknownVersion? || (read.Loaded? && !resumes);
            && c.waiting == Waiting(resumes, monotonic)
            && (if resumes then c.state == read.state else IsNormal(c.state, now))
            && c.disk == Disk(if over then None else disk.file, disk.program)
            && c.trace == (if over then [Wrote(None)] else [])
            && c.report == Reporting(true, 0, over) && c.debt == FetchDebt(over, false)
            && c.sight == Sight(None, false, false)
            && !c.link.reachable && !c.link.probedOnce && c.link.token.None?
            && c.link.detector.failures == 0
  {
    hide ParseState, CutoffPassed, Render;
  }

  /** Where a saved state is gone on with, an entry whose delivery was cut short counts as delivered, on disk too, and
      is not tried again; and if the callback names that entry it is the one playing. */
  lemma ResumeMeans(c: Core, e: Event, o: Occurrence, wrote: bool)
    ensures var d := ResumeSaved(c, e, Some(o), wrote);
            var closes := !o.delivered && c.state.mode.Fallback?;
            && d.state == (if closes then c.state.(occurrence := Some(o.(delivered := true))) else c.state)
            && d.disk.program == c.disk.program
            && d.disk.file == (if closes && wrote then Some(Render(d.state)) else c.disk.file)
            && d.trace == c.trace + (if closes && wrote then [Wrote(d.disk.file)] else [])
            && (if e.identityResolved == o.identityResolved && e.entryKey == o.entryKey
                then d.sight.last == Some(Boundary(e.identityResolved, e.entryKey, e.playlistLoop))
                     && !d.sight.finished && d.sight.forget == c.sight.forget
                else d.sight == c.sight)
            && d.link == c.link && d.waiting == c.waiting && d.debt == c.debt && d.report == c.report
  {
    hide Render;
  }

  /** A callback's own posts are skipped exactly where it stops the playlist a fallback runs under, and while a fallback
      runs or rests, the loss is confirmed, or a report is owed. */
  lemma SkipsPostsIff(cfg: Config, c: Core, e: Event, env: ObserveEnv)
    ensures var d := Observe(cfg, c, e, env);
            SkipsPosts(cfg, c, e, env) <==>
              || (!c.state.mode.Normal? && e.action.Stop?)
              || !d.state.mode.Normal? || Lost(cfg, d) || d.report.owed
  {
    hide Observe, Lost;
    RestMeans(c.(trace := []), e.at, env.wroteRest);
  }
}
