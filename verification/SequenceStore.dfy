/** Observation sequence numbers across crashes and failing writes (native/src/sequence_store.cpp,
    native/src/runtime.cpp): a number is on disk before it is published, so that no number is published twice. */
module SequenceStore {
  import opened FileStore

  function ValueOf(f: File<nat>): nat {
    if f.Valid? then f.record else 0
  }

  /** loadDetailed: the larger of what the two files hold. */
  function Load(f: Files<nat>): nat {
    if ValueOf(f.primary) >= ValueOf(f.backup) then ValueOf(f.primary) else ValueOf(f.backup)
  }

  predicate Refuses(f: Files<nat>, value: nat) {
    value < Load(f)
  }

  /** store: refused, or written as far as the disk lets it. */
  function AfterStore(f: Files<nat>, value: nat, a: Attempt): Files<nat> {
    if Refuses(f, value) then f else After(f, value, a)
  }

  class SequenceFileStore {
    const files: TwoFiles<nat>

    constructor (files: TwoFiles<nat>)
      ensures this.files == files
    {
      this.files := files;
    }

    method LoadValue() returns (value: nat)
      ensures value == Load(files.View())
    {
      value := 0;
      if files.primary.Valid? && files.primary.record > value {
        value := files.primary.record;
      }
      if files.backup.Valid? && files.backup.record > value {
        value := files.backup.record;
      }
    }

    method Store(value: nat, a: Attempt) returns (stored: bool)
      modifies files
      ensures stored == (!Refuses(old(files.View()), value) && a.wrote)
      ensures files.View() == AfterStore(old(files.View()), value, a)
    {
      var held := LoadValue();
      if value < held {
        return false;
      }
      stored := files.WriteWithBackupRotation(value, a);
    }
  }

  /* ---- Runs ---- */

  /** A process that is down, or up with the last number it minted. */
  datatype Process = Down(files: Files<nat>) | Up(files: Files<nat>, minted: nat)

  /** One observation minted, stored if the write does not fail, and published either way; a crash at a stage of the
      write, before anything is published; a crash between observations; a clean stop, which stores the last number
      once more; a crash at a stage of that; a start. */
  datatype Step =
    | Publish(write: Attempt)
    | CrashWhileStoring(left: Files<nat>)
    | Crash
    | Stop(write: Attempt)
    | CrashWhileStopping(left: Files<nat>)
    | Start

  predicate Possible(p: Process, s: Step) {
    s.Start? <==> p.Down?
  }

  ghost predicate Legal(p: Process, s: Step) {
    && Possible(p, s)
    && (s.CrashWhileStoring? ==> Stage(p.files, p.minted + 1, s.left))
    && (s.CrashWhileStopping? ==> Stage(p.files, p.minted, s.left))
  }

  function Next(p: Process, s: Step): Process
    requires Possible(p, s)
  {
    match s
    case Start => Up(p.files, Load(p.files))
    case Publish(write) => Up(AfterStore(p.files, p.minted + 1, write), p.minted + 1)
    case CrashWhileStoring(left) => Down(left)
    case Crash => Down(p.files)
    case Stop(write) => Down(AfterStore(p.files, p.minted, write))
    case CrashWhileStopping(left) => Down(left)
  }

  function Published(p: Process, s: Step): seq<nat>
    requires Possible(p, s)
  {
    if s.Publish? then [p.minted + 1] else []
  }

  /** Files this store wrote: neither spoiled, and the primary never older than the backup. */
  ghost predicate Written(f: Files<nat>) {
    !f.primary.Garbage? && !f.backup.Garbage?
      && (f.primary.Valid? && f.backup.Valid? ==> f.backup.record <= f.primary.record)
  }

  /** The disk is never ahead of the process; behind it, it may have fallen. */
  ghost predicate Sound(p: Process) {
    Written(p.files) && (p.Up? ==> Load(p.files) <= p.minted)
  }

  /** A number about to be published, or stored again, is never refused; and wherever the write stops or fails, what a
      start would resume from is the old number or the new one, the new one exactly if the new primary was put in
      place. */
  lemma StoreIsSafe(f: Files<nat>, value: nat, a: Attempt)
    requires Written(f) && value >= Load(f)
    ensures !Refuses(f, value) && Written(After(f, value, a))
    ensures Load(After(f, value, a)) == if a.wrote then value else Load(f)
  {
  }

  lemma StageIsSafe(f: Files<nat>, value: nat, left: Files<nat>)
    requires Written(f) && value >= Load(f) && Stage(f, value, left)
    ensures Written(left) && (Load(left) == value || Load(left) == Load(f))
  {
    StagesAreAttempts(f, value, left);
    var a :| left == After(f, value, a);
    StoreIsSafe(f, value, a);
  }

  lemma StepKeepsSound(p: Process, s: Step)
    requires Sound(p) && Legal(p, s)
    ensures Sound(Next(p, s))
  {
    match s
    case Publish(write) => StoreIsSafe(p.files, p.minted + 1, write);
    case CrashWhileStoring(left) => StageIsSafe(p.files, p.minted + 1, left);
    case Stop(write) => StoreIsSafe(p.files, p.minted, write);
    case CrashWhileStopping(left) => StageIsSafe(p.files, p.minted, left);
    case _ =>
  }

  ghost predicate CanRun(p: Process, steps: seq<Step>)
    decreases |steps|
  {
    steps == [] || (Legal(p, steps[0]) && CanRun(Next(p, steps[0]), steps[1..]))
  }

  function PublishedAll(p: Process, steps: seq<Step>): seq<nat>
    requires CanRun(p, steps)
    decreases |steps|
  {
    if steps == [] then [] else Published(p, steps[0]) + PublishedAll(Next(p, steps[0]), steps[1..])
  }

  ghost predicate Rising(numbers: seq<nat>, above: nat) {
    && (forall i :: 0 <= i < |numbers| ==> numbers[i] > above)
    && forall i, j :: 0 <= i < j < |numbers| ==> numbers[i] < numbers[j]
  }

  lemma RisingFrom(first: nat, rest: seq<nat>, above: nat)
    ensures Rising([first] + rest, above) <==> first > above && Rising(rest, first)
  {
    var all := [first] + rest;
    assert forall i :: 0 <= i < |rest| ==> rest[i] == all[i + 1];
    assert forall i :: 0 < i < |all| ==> all[i] == rest[i - 1];
    if Rising(all, above) {
      assert all[0] == first;
    }
  }

  /** At every start that a publication follows, the disk holds at least the highest number published so far. */
  ghost predicate DiskKeptUp(p: Process, steps: seq<Step>, high: nat)
    requires CanRun(p, steps)
    decreases |steps|
  {
    steps == [] ||
    (&& (steps[0].Start? && |steps| > 1 && steps[1].Publish? ==> Load(p.files) >= high)
     && DiskKeptUp(Next(p, steps[0]), steps[1..], if steps[0].Publish? then p.minted + 1 else high))
  }

  /** Through any number of crashes, at any stage of any write, failing writes and restarts, the published numbers rise
      above the highest before exactly if the disk had kept up at every start that led to another publication. */
  lemma {:induction false} NumbersRiseIff(p: Process, steps: seq<Step>, high: nat)
    requires Sound(p) && CanRun(p, steps)
    requires p.Up? && steps != [] && steps[0].Publish? ==> p.minted >= high
    ensures Rising(PublishedAll(p, steps), high) <==> DiskKeptUp(p, steps, high)
    decreases |steps|
  {
    hide Sound;
    if steps == [] {
    } else {
      var s, later := steps[0], steps[1..];
      StepKeepsSound(p, s);
      var q := Next(p, s);
      if s.Publish? {
        NumbersRiseIff(q, later, p.minted + 1);
        RisingFrom(p.minted + 1, PublishedAll(q, later), high);
      } else {
        assert [] + PublishedAll(q, later) == PublishedAll(q, later);
        if s.Start? && later != [] && later[0].Publish? && Load(p.files) < high {
          RisingFrom(q.minted + 1, PublishedAll(Next(q, later[0]), later[1..]), high);
        } else {
          NumbersRiseIff(q, later, high);
        }
      }
    }
  }

  /** How the disk falls behind, and how it catches up: a published number is on disk exactly if its own write did not
      fail; of the steps that publish nothing a crash makes up for nothing, and a stop exactly if its write does not
      fail, or there is nothing to make up for. */
  lemma DiskFallsBehindIff(p: Process, s: Step)
    requires p.Up? && Sound(p) && Legal(p, s)
    ensures s.Publish? ==> (Load(Next(p, s).files) == p.minted + 1 <==> s.write.wrote)
    ensures s.Crash? ==> Load(Next(p, s).files) == Load(p.files)
    ensures s.Stop? ==> (Load(Next(p, s).files) == p.minted <==> s.write.wrote || Load(p.files) == p.minted)
    ensures s.CrashWhileStoring? ==>
              (Load(s.left) >= p.minted <==> Load(p.files) == p.minted || Load(s.left) == p.minted + 1)
    ensures s.CrashWhileStopping? ==> Load(p.files) <= Load(s.left) <= p.minted
  {
    match s
    case Publish(write) => StoreIsSafe(p.files, p.minted + 1, write);
    case CrashWhileStoring(left) => StageIsSafe(p.files, p.minted + 1, left);
    case Stop(write) => StoreIsSafe(p.files, p.minted, write);
    case CrashWhileStopping(left) => StageIsSafe(p.files, p.minted, left);
    case Crash =>
  }

  ghost predicate StoresSucceed(steps: seq<Step>) {
    forall s :: s in steps ==> s.Publish? ==> s.write.wrote
  }

  /** The disk holds the last number minted. */
  ghost predicate UpToDate(p: Process) {
    Sound(p) && (p.Up? ==> p.minted == Load(p.files))
  }

  lemma {:induction false} SucceedingKeepsUp(p: Process, steps: seq<Step>)
    requires UpToDate(p) && CanRun(p, steps) && StoresSucceed(steps)
    ensures DiskKeptUp(p, steps, Load(p.files))
    decreases |steps|
  {
    if steps == [] {
    } else {
      var s := steps[0];
      assert s in steps && forall t :: t in steps[1..] ==> t in steps;
      StepKeepsSound(p, s);
      if p.Up? {
        DiskFallsBehindIff(p, s);
      }
      SucceedingKeepsUp(Next(p, s), steps[1..]);
      if !s.Publish? {
        KeptUpBelow(Next(p, s), steps[1..], Load(Next(p, s).files), Load(p.files));
      }
    }
  }

  lemma {:induction false} KeptUpBelow(p: Process, steps: seq<Step>, high: nat, low: nat)
    requires CanRun(p, steps) && DiskKeptUp(p, steps, high) && low <= high
    ensures DiskKeptUp(p, steps, low)
    decreases |steps|
  {
    if steps != [] && !steps[0].Publish? {
      KeptUpBelow(Next(p, steps[0]), steps[1..], high, low);
    }
  }

  /** In particular: with stores that do not fail no number repeats, wherever the crashes fall. */
  lemma NumbersNeverRepeat(p: Process, steps: seq<Step>)
    requires UpToDate(p) && CanRun(p, steps) && StoresSucceed(steps)
    ensures Rising(PublishedAll(p, steps), Load(p.files))
  {
    SucceedingKeepsUp(p, steps);
    NumbersRiseIff(p, steps, Load(p.files));
  }

  lemma StartAndPublish(p: Process, write: Attempt)
    requires p.Down?
    ensures CanRun(p, [Start, Publish(write)])
    ensures PublishedAll(p, [Start, Publish(write)]) == [Load(p.files) + 1]
  {
    var up := Next(p, Start);
    assert [Start, Publish(write)][1..] == [Publish(write)] && [Publish(write)][1..] == [];
    assert CanRun(Next(up, Publish(write)), []);
    assert CanRun(up, [Publish(write)]) && PublishedAll(up, [Publish(write)]) == [Load(p.files) + 1] + [];
  }

  /** A restart publishes a number again exactly if the disk is behind. */
  lemma RestartRepeatsIff(p: Process, write: Attempt)
    requires p.Up? && Sound(p)
    ensures CanRun(p, [Crash, Start, Publish(write)])
    ensures var numbers := PublishedAll(p, [Crash, Start, Publish(write)]);
            numbers == [Load(p.files) + 1] && (numbers[0] <= p.minted <==> Load(p.files) < p.minted)
  {
    var down := Next(p, Crash);
    StartAndPublish(down, write);
    assert [Crash, Start, Publish(write)][1..] == [Start, Publish(write)];
    assert [] + PublishedAll(down, [Start, Publish(write)]) == PublishedAll(down, [Start, Publish(write)]);
  }

  /** Publish, crash, start and publish: the second number is the first again exactly if the first write failed. */
  lemma FailedStoreRepeats(p: Process, write: Attempt, next: Attempt)
    requires p.Up? && UpToDate(p)
    ensures CanRun(p, [Publish(write), Crash, Start, Publish(next)])
    ensures PublishedAll(p, [Publish(write), Crash, Start, Publish(next)]) ==
            [p.minted + 1, if write.wrote then p.minted + 2 else p.minted + 1]
  {
    var steps := [Publish(write), Crash, Start, Publish(next)];
    var q := Next(p, Publish(write));
    StepKeepsSound(p, Publish(write));
    StoreIsSafe(p.files, p.minted + 1, write);
    RestartRepeatsIff(q, next);
    assert steps[1..] == [Crash, Start, Publish(next)];
  }

  lemma StoppedAndStarted(p: Process, last: Attempt, next: Attempt)
    requires p.Up? && Sound(p)
    ensures CanRun(p, [Stop(last), Start, Publish(next)])
    ensures PublishedAll(p, [Stop(last), Start, Publish(next)]) ==
            [if last.wrote then p.minted + 1 else Load(p.files) + 1]
  {
    StoreIsSafe(p.files, p.minted, last);
    hide After, Load, Written;
    var down := Next(p, Stop(last));
    StartAndPublish(down, next);
    assert [Stop(last), Start, Publish(next)][1..] == [Start, Publish(next)];
    assert [] + PublishedAll(down, [Start, Publish(next)]) == PublishedAll(down, [Start, Publish(next)]);
  }

  /** With a clean stop in place of the crash: exactly if the first write failed and the stop's write did too. */
  lemma StopMakesUp(p: Process, write: Attempt, last: Attempt, next: Attempt)
    requires p.Up? && UpToDate(p)
    ensures CanRun(p, [Publish(write), Stop(last), Start, Publish(next)])
    ensures PublishedAll(p, [Publish(write), Stop(last), Start, Publish(next)]) ==
            [p.minted + 1, if write.wrote || last.wrote then p.minted + 2 else p.minted + 1]
  {
    var steps := [Publish(write), Stop(last), Start, Publish(next)];
    var q := Next(p, Publish(write));
    StepKeepsSound(p, Publish(write));
    StoreIsSafe(p.files, p.minted + 1, write);
    StoppedAndStarted(q, last, next);
    assert steps[1..] == [Stop(last), Start, Publish(next)];
  }
}
