/** A state file that could not be removed (native/adapters/shared/fallback_state_store.h,
    native/adapters/shared/fallback_executor.h): what a start makes of it after the fallback was handed back. */
module ExecutorLeftover {
  import opened Basics
  import opened FallbackState
  import opened FallbackProgram
  import opened SavedState
  import opened Executor
  import opened ExecutorRun

  /** A start resumes what was handed back exactly if the file left behind can be read and its cutoff has not passed;
      with the file removed it never does. */
  lemma FailedRemovalResumesIff(c: Core, now: int, urlReadable: bool, later: int, monotonic: int)
    ensures var d := HandBackOverFile(c, now, urlReadable);
            var r := Restored(d.disk, later, monotonic);
            && d.state.mode.Normal?
            && (!r.state.mode.Normal? <==>
                Resumable(c.disk) && !CutoffPassed(ParseState(c.disk.file.value).state, later))
            && (!r.state.mode.Normal? ==>
                  r.state == ParseState(c.disk.file.value).state && r.waiting == Waiting(true, monotonic))
    ensures Restored(HandBack(c, now, urlReadable).disk, later, monotonic).state.mode.Normal?
  {
    if Resumable(c.disk) {
      LoadedIsNotNormal(c.disk.file.value);
    }
    hide ParseState, CutoffPassed;
  }

  /** In terms of the state last written: exactly if that could be restored and its cutoff has not passed. */
  lemma LeftoverResumesIff(c: Core, s: State, now: int, urlReadable: bool, later: int, monotonic: int)
    requires c.disk.file == Some(Render(s)) && !s.mode.Normal?
    ensures var r := Restored(HandBackOverFile(c, now, urlReadable).disk, later, monotonic);
            && (!r.state.mode.Normal? <==> Restorable(s) && !CutoffPassed(s, later))
            && (!r.state.mode.Normal? ==> r.state == Reloaded(s))
  {
    SavedStateComesBack(s);
    FailedRemovalResumesIff(c, now, urlReadable, later, monotonic);
    hide ParseState, Render, Restorable, Restored, HandBackOverFile;
  }

  /** And if another program was installed meanwhile, what such a start resumes was entered with the installed program
      exactly if the two agree in package, revision and expiry. */
  lemma LeftoverFitsIff(c: Core, p: Program)
    requires CoreOk(c) && Resumable(c.disk)
    ensures DiskOk(c.disk.(program := Some(p))) <==>
            var q := c.disk.program.value;
            p.packageId == q.packageId && p.revision == q.revision && p.expiresAt == q.expiresAt
  {
    hide ParseState;
  }
}
