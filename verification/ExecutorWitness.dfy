/** Two runs of the executor with its default settings (native/adapters/shared/fallback_executor.h): an entry sent again
    after a settled hand-back, and an entry that names a node twice, sent twice with two ids and then once more. */
module ExecutorWitness {
  import opened Basics
  import opened Ordering
  import opened Utf8
  import opened CivilDate
  import opened Rfc3339
  import opened FallbackState
  import opened FallbackProgram
  import opened SavedState
  import opened Executor
  import opened ExecutorSafety
  import opened ExecutorRecord
  import opened ExecutorRun
  import opened ExecutorLimits
  import opened ExecutorOnce
  import opened ExecutorAgain
  import OutageDetector
  import NodeDelivery

  /** Three failed probes over fifteen seconds, a probe every five, and a settle window of thirty. */
  const DEFAULTS := Config(OutageDetector.Config(3, 15000), 5000, 30000)

  const NOW := 1_800_000_000_000

  /** 2030-01-01T00:00:00Z. */
  const EXPIRY: Bytes := [0x32, 0x30, 0x33, 0x30, 0x2D, 0x30, 0x31, 0x2D, 0x30, 0x31,
                          0x54, 0x30, 0x30, 0x3A, 0x30, 0x30, 0x3A, 0x30, 0x30, 0x5A]
  const EXPIRY_SECONDS := 1_893_456_000

  const PLAYLIST: Bytes := [0x70]
  const KEY: Bytes := [0x6B]
  const NODE: Bytes := [0x6E]
  const PLAYER: Bytes := [0x65]
  const TARGET := Target(NODE, true, Some([0x61]), Some([0x63]))

  function Id(first: byte, i: nat): Bytes {
    [first, if i == 0 then 0x30 else 0x31]
  }

  function OneEntry(targets: seq<Target>): Program {
    Program([0x71], [0x72], EXPIRY, PLAYER, true, Some(1), [Entry(KEY, true, targets)])
  }

  function Playing(at: int): Event {
    Event(Action.Playing, PLAYLIST, true, KEY, None, at)
  }

  /** Every node answers at once, and the ids start with this byte. */
  function Answering(at: int, id: byte): ObserveEnv {
    ObserveEnv(true, Some(PLAYER), true, false, true, true,
               DeliveryEnv(i => Some(Id(id, i)), _ => true, _ => [],
                           _ => NodeDelivery.World(_ => NodeDelivery.Answer(200, NodeDelivery.AUTHORIZED, ""), _ => at,
                                                   (_, _) => true),
                           true, true))
  }

  /** A probe that fails, and, without a coordinator configured, none at all. */
  function Silent(at: int, monotonic: int, configured: bool): TickEnv {
    TickEnv(at, monotonic, None, configured, false, false, true, false, false, None, false)
  }

  /** A player in normal that has lost the coordinator, with a program for these targets. */
  function Alone(targets: seq<Target>): Core {
    Core(NormalSince(NOW - 60000), Waiting(false, 0),
         Link(OutageDetector.Detector(3, NOW - 17000, NOW - 1000), false, true, NOW - 1000, None),
         Reporting(false, NOW, false),
         FetchDebt(false, false), Sight(None, false, false), Disk(None, Some(OneEntry(targets))), [])
  }

  /* ---- The program is usable, and its entry due ---- */

  lemma ExpiryIsStamp()
    ensures Shaped(EXPIRY) && StampOf(EXPIRY) == Stamp(Date(2030, 1, 1), 0, 0, 0)
  {
  }

  lemma ExpiryDay()
    ensures DaysFromCivil(Date(2030, 1, 1)) == 21915
  {
  }

  lemma ExpiryIsRead()
    ensures ParseUtc(EXPIRY) == Some(EXPIRY_SECONDS) && ParseEpochSeconds(EXPIRY) == Some(EXPIRY_SECONDS)
    ensures CutoffMillis(EXPIRY) == EXPIRY_SECONDS * 1000
  {
    ExpiryIsStamp();
    ExpiryDay();
    ParsersAgree(EXPIRY);
    hide Shaped, StampOf, DaysFromCivil, ParseEpochSeconds;
  }

  lemma EntryMatches(targets: seq<Target>, now: int)
    requires targets != [] && targets[0] == TARGET && now < EXPIRY_SECONDS * 1000
    ensures var h := Host(true, Some(PLAYER), Some(OneEntry(targets)), true);
            && Resolve(h, KEY, now) == Match(OneEntry(targets), Entry(KEY, true, targets))
            && UsableProblem(h, now).NoProblem?
  {
    ExpiryIsRead();
    hide ParseUtc, ParseEpochSeconds;
    var entry := Entry(KEY, true, targets);
    assert [entry][1..] == [] && TARGET in targets;
    assert EntriesFor([entry], KEY) == [entry] && EntriesFor([entry], []) == [];
  }

  lemma EntryIsServed(c: Core, targets: seq<Target>, now: int, id: byte)
    requires targets != [] && targets[0] == TARGET && now < EXPIRY_SECONDS * 1000
    requires c.disk.program == Some(OneEntry(targets)) && c.state.mode.Normal? && Lost(DEFAULTS, c)
    ensures Served(DEFAULTS, c, Playing(now), Answering(now, id))
    ensures Resolve(HostOf(c, Answering(now, id)), KEY, now) == Match(OneEntry(targets), Entry(KEY, true, targets))
  {
    EntryMatches(targets, now);
    hide Resolve, UsableProblem;
  }

  lemma TargetIsSendable(targets: seq<Target>, now: int, id: byte, i: nat)
    requires i < |targets| && targets[i] == TARGET
    ensures var env := Answering(now, id).delivery;
            && Sendable(OneEntry(targets), targets, env, i) && env.ids(i) == Some(Id(id, i))
            && env.worlds(i).clock(0) == now
  {
  }

  lemma EntryIsDue(c: Core, targets: seq<Target>, now: int, id: byte, i: nat)
    requires i < |targets| && (forall t :: t in targets ==> t == TARGET) && now < EXPIRY_SECONDS * 1000
    requires c.disk.program == Some(OneEntry(targets)) && c.state.mode.Normal? && Lost(DEFAULTS, c)
    ensures Due(DEFAULTS, c, Playing(now), Answering(now, id), i)
    ensures DueRequest(c, Playing(now), Answering(now, id), i) == Sent(NODE, Id(id, i), KEY, now)
  {
    assert targets[0] in targets && targets[i] in targets;
    EntryIsServed(c, targets, now, id);
    TargetIsSendable(targets, now, id, i);
    ExpiryIsRead();
    hide Resolve, Served, CutoffMillis, Sendable, Answering, Id;
  }

  /** So it is sent to every target by a player in normal that has just lost the coordinator. */
  lemma EntryIsSent(c: Core, targets: seq<Target>, now: int, id: byte, i: nat)
    requires i < |targets| && (forall t :: t in targets ==> t == TARGET) && now < EXPIRY_SECONDS * 1000
    requires c.disk.program == Some(OneEntry(targets)) && c.state.mode.Normal? && Lost(DEFAULTS, c)
    requires !c.waiting.undecided && (c.sight.forget || c.sight == Sight(None, false, false))
    ensures ActsOnNew(c, Playing(now), Answering(now, id))
    ensures Sent(NODE, Id(id, i), KEY, now) in Observe(DEFAULTS, c, Playing(now), Answering(now, id)).trace
  {
    var e, env := Playing(now), Answering(now, id);
    assert Decided(c, e, env) == c.(trace := [], sight := Sight(None, false, false));
    EntryIsDue(Decided(c, e, env), targets, now, id, i);
    DueEntryIsServed(DEFAULTS, c, e, env, i);
  }

  /* ---- Ticks while the coordinator is silent ---- */

  lemma FailingTick(cfg: Config, c: Core, at: int, monotonic: int)
    requires !c.link.reachable && ProbeDue(cfg, c, at) && !Settled(cfg, c, monotonic)
    requires c.state.mode.Fallback? ==> !CutoffPassed(c.state, at)
    ensures var d := Tick(cfg, c, Silent(at, monotonic, true));
            d == c.(link := Link(OutageDetector.Recorded(c.link.detector, OutageDetector.Probe(false, at)), false,
                                 true, at, None),
                    report := d.report, trace := [])
  {
    hide CutoffPassed;
  }

  lemma SettlingTick(cfg: Config, c: Core, at: int, monotonic: int)
    requires !c.link.reachable && Settled(cfg, c, monotonic)
    ensures var d := Tick(cfg, c, Silent(at, monotonic, false));
            && d.state.mode.Normal? && d.sight.forget && !d.waiting.undecided
            && d.disk.program == c.disk.program && d.link.detector == c.link.detector
  {
    hide CutoffPassed, ProbeDue;
    SettleForgets(cfg, c, Silent(at, monotonic, false));
    RestTouches(ProbePart(cfg, c.(trace := []), Silent(at, monotonic, false)), at, true);
    hide RestAtCutoff;
  }

  /** Three of them, eight seconds apart, after a start. */
  lemma LossIsConfirmed(c: Core)
    requires c.link == Link(OutageDetector.FRESH, false, false, 0, None)
    requires c.waiting.since == 0 && (c.state.mode.Fallback? ==> c.state.cutoffAt == EXPIRY)
    ensures var c3 := AfterSilence(c);
            && c3.state == c.state && c3.waiting == c.waiting && c3.sight == c.sight && c3.disk == c.disk
            && !c3.link.reachable && Lost(DEFAULTS, c3)
  {
    ExpiryIsRead();
    hide ParseEpochSeconds, Tick;
    var c1 := Tick(DEFAULTS, c, Silent(NOW + 2000, 1000, true));
    FailingTick(DEFAULTS, c, NOW + 2000, 1000);
    var c2 := Tick(DEFAULTS, c1, Silent(NOW + 10000, 9000, true));
    FailingTick(DEFAULTS, c1, NOW + 10000, 9000);
    FailingTick(DEFAULTS, c2, NOW + 18000, 17000);
  }

  /* ---- Putting runs together ---- */

  lemma Onwards(cfg: Config, m: Machine, s: Step, steps: seq<Step>)
    requires Possible(m, s) && CanRun(cfg, Next(cfg, m, s), steps)
    ensures CanRun(cfg, m, [s] + steps)
    ensures EffectsOfRun(cfg, m, [s] + steps) == EffectsOfStep(cfg, m, s) + EffectsOfRun(cfg, Next(cfg, m, s), steps)
  {
    hide Next, EffectsOfStep;
    assert ([s] + steps)[1..] == steps;
  }

  lemma {:induction false} ProgramIsKept(d: Disk, effects: seq<Effect>)
    requires forall x :: x in effects ==> !x.Installed?
    ensures DiskAfter(d, effects).program == d.program
    decreases |effects|
  {
    if effects == [] {
    } else {
      assert effects[0] in effects;
      ProgramIsKept(DiskAfterOne(d, effects[0]), effects[1..]);
    }
  }

  function FirstTrace(targets: seq<Target>): seq<Effect> {
    Observe(DEFAULTS, Alone(targets), Playing(NOW), Answering(NOW, 0x31)).trace
  }

  /** The plugin goes down right after the first callback. */
  function Crash(targets: seq<Target>): Step {
    CrashInObserve(Playing(NOW), Answering(NOW, 0x31), |FirstTrace(targets)|)
  }

  ghost predicate AllOne(targets: seq<Target>) {
    targets != [] && forall t :: t in targets ==> t == TARGET
  }

  /** What the crash leaves on disk. */
  function Left(targets: seq<Target>): Disk {
    DiskAfter(Alone(targets).disk, FirstTrace(targets))
  }

  lemma CrashLeaves(targets: seq<Target>)
    ensures var m, s := Up(Alone(targets)), Crash(targets);
            EffectsOfStep(DEFAULTS, m, s) == FirstTrace(targets) && Next(DEFAULTS, m, s) == Down(Left(targets))
  {
    hide Observe, Alone, Playing, Answering, DiskAfter;
    assert Cut(FirstTrace(targets), |FirstTrace(targets)|) == FirstTrace(targets);
  }

  lemma FirstIsSent(targets: seq<Target>, i: nat)
    requires AllOne(targets) && i < |targets|
    ensures Sent(NODE, Id(0x31, i), KEY, NOW) in FirstTrace(targets)
  {
    hide Observe, Playing, Answering, OneEntry, Id;
    EntryIsSent(Alone(targets), targets, NOW, 0x31, i);
  }

  lemma LeftIsOk(targets: seq<Target>)
    ensures Left(targets).program == Some(OneEntry(targets)) && DiskOk(Left(targets))
  {
    var c, e, env := Alone(targets), Playing(NOW), Answering(NOW, 0x31);
    assert CoreOk(c);
    ObserveInTime(DEFAULTS, c, e, env);
    CrashLeaves(targets);
    StepKeeps(DEFAULTS, Up(c), Crash(targets));
    hide Observe, DiskOk, Playing, Answering;
    ProgramIsKept(c.disk, FirstTrace(targets));
  }

  /** The crash forgets what was sent exactly if the record does not fit. */
  lemma LeftIffFits(targets: seq<Target>)
    requires AllOne(targets)
    ensures SavedFor(Left(targets), KEY) <==> RecordFits(Alone(targets), Playing(NOW), Answering(NOW, 0x31))
    ensures !SavedFor(Left(targets), KEY) ==>
            Restored(Left(targets), NOW + 1000, 0) == FreshCore(Left(targets), NOW + 1000, 0)
  {
    var c, e, env := Alone(targets), Playing(NOW), Answering(NOW, 0x31);
    assert Decided(c, e, env) == c;
    var effects := FirstTrace(targets);
    FirstIsSent(targets, 0);
    hide Observe, SavedFor, RecordFits, FreshCore, Restored, Decided, Alone, Answering;
    var j: nat :| j < |effects| && effects[j] == Sent(NODE, Id(0x31, 0), KEY, NOW);
    assert Cut(effects, |effects|) == effects;
    CrashForgetsIff(DEFAULTS, c, e, env, j, |effects|, NOW + 1000, 0);
  }

  /* ---- A node named twice ---- */

  const SILENCE: seq<Step> :=
    [DoTick(Silent(NOW + 2000, 1000, true)), DoTick(Silent(NOW + 10000, 9000, true)),
     DoTick(Silent(NOW + 18000, 17000, true))]

  function AfterSilence(c: Core): Core {
    Tick(DEFAULTS, Tick(DEFAULTS, Tick(DEFAULTS, c, Silent(NOW + 2000, 1000, true)), Silent(NOW + 10000, 9000, true)),
         Silent(NOW + 18000, 17000, true))
  }

  lemma ThroughSilence(c: Core, steps: seq<Step>)
    requires CanRun(DEFAULTS, Up(AfterSilence(c)), steps)
    ensures CanRun(DEFAULTS, Up(c), SILENCE + steps)
    ensures forall x :: x in EffectsOfRun(DEFAULTS, Up(AfterSilence(c)), steps) ==>
            x in EffectsOfRun(DEFAULTS, Up(c), SILENCE + steps)
  {
    hide Tick, Silent, CanRun, EffectsOfRun;
    var t1, t2, t3 := SILENCE[0], SILENCE[1], SILENCE[2];
    var c1 := Tick(DEFAULTS, c, t1.tick);
    var c2 := Tick(DEFAULTS, c1, t2.tick);
    Onwards(DEFAULTS, Up(c2), t3, steps);
    Onwards(DEFAULTS, Up(c1), t2, [t3] + steps);
    Onwards(DEFAULTS, Up(c), t1, [t2] + ([t3] + steps));
    assert SILENCE + steps == [t1] + ([t2] + ([t3] + steps));
  }

  /** A callback that ends a run. */
  lemma EndsWith(c: Core, e: Event, env: ObserveEnv)
    ensures CanRun(DEFAULTS, Up(c), [DoObserve(e, env)])
    ensures EffectsOfRun(DEFAULTS, Up(c), [DoObserve(e, env)]) == Observe(DEFAULTS, c, e, env).trace
  {
    hide Observe;
    assert [DoObserve(e, env)][1..] == [];
    var effects := Observe(DEFAULTS, c, e, env).trace;
    assert EffectsOfRun(DEFAULTS, Up(Observe(DEFAULTS, c, e, env)), []) == [];
    assert effects + [] == effects;
  }

  lemma RepeatDoesNotFit()
    ensures !RecordFits(Alone([TARGET, TARGET]), Playing(NOW), Answering(NOW, 0x31))
  {
    var targets, env := [TARGET, TARGET], Answering(NOW, 0x31);
    EntryMatches(targets, NOW);
    TargetIsSendable(targets, NOW, 0x31, 0);
    TargetIsSendable(targets, NOW, 0x31, 1);
    hide Resolve, ValidUtf8, UsableProblem, TargetProblem, TextsFit, EntriesFor;
  }

  function RepeatRun(): seq<Step> {
    [Crash([TARGET, TARGET])]
    + ([DoStart(NOW + 1000, 0)] + (SILENCE + [DoObserve(Playing(NOW + 20000), Answering(NOW + 20000, 0x32))]))
  }

  /** The resolver does not refuse an entry that names a node twice. The node gets two ids for one occurrence; the
      record cannot be read back; and after a crash, a start and a confirmed loss the node gets a third. */
  lemma RepeatedNodeIsSentAgain()
    ensures CanRun(DEFAULTS, Up(Alone([TARGET, TARGET])), RepeatRun())
    ensures var effects := EffectsOfRun(DEFAULTS, Up(Alone([TARGET, TARGET])), RepeatRun());
            && Sent(NODE, Id(0x31, 0), KEY, NOW) in effects && Sent(NODE, Id(0x31, 1), KEY, NOW) in effects
            && Sent(NODE, Id(0x32, 0), KEY, NOW + 20000) in effects
  {
    var targets := [TARGET, TARGET];
    FirstIsSent(targets, 0);
    FirstIsSent(targets, 1);
    LeftIsOk(targets);
    LeftIffFits(targets);
    RepeatDoesNotFit();
    CrashLeaves(targets);
    var d := Left(targets);
    var c := FreshCore(d, NOW + 1000, 0);
    LossIsConfirmed(c);
    hide Tick, Observe, SavedFor, RecordFits, DiskOk, Lost, Crash, Restored, Playing, Answering, Alone, OneEntry, Left,
         FirstTrace, CanRun, EffectsOfRun, SILENCE, Id;
    EntryIsSent(AfterSilence(c), targets, NOW + 20000, 0x32, 0);
    var last := [DoObserve(Playing(NOW + 20000), Answering(NOW + 20000, 0x32))];
    EndsWith(AfterSilence(c), Playing(NOW + 20000), Answering(NOW + 20000, 0x32));
    ThroughSilence(c, last);
    Onwards(DEFAULTS, Down(d), DoStart(NOW + 1000, 0), SILENCE + last);
    Onwards(DEFAULTS, Up(Alone(targets)), Crash(targets), [DoStart(NOW + 1000, 0)] + (SILENCE + last));
  }

  /* ---- A settled hand-back ---- */

  lemma TextsAreValid()
    ensures ValidUtf8(PLAYLIST) && ValidUtf8(KEY) && ValidUtf8(NODE) && ValidUtf8([0x71]) && ValidUtf8([0x72])
    ensures ValidUtf8(EXPIRY) && ValidUtf8(Id(0x31, 0))
  {
    hide ValidUtf8;
    AsciiIsValid(PLAYLIST);
    AsciiIsValid(KEY);
    AsciiIsValid(NODE);
    AsciiIsValid([0x71]);
    AsciiIsValid([0x72]);
    AsciiIsValid(EXPIRY);
    AsciiIsValid(Id(0x31, 0));
  }

  lemma SingleTargetFits()
    ensures TargetsFit(OneEntry([TARGET]), [TARGET], Answering(NOW, 0x31).delivery)
  {
    TextsAreValid();
    hide ValidUtf8, OneEntry, TargetProblem;
  }

  lemma SingleFits()
    ensures RecordFits(Alone([TARGET]), Playing(NOW), Answering(NOW, 0x31))
  {
    EntryMatches([TARGET], NOW);
    TextsAreValid();
    SingleTargetFits();
    hide Resolve, ValidUtf8, UsableProblem, EntriesFor, TargetsFit;
  }

  lemma ResumedFrom(d: Disk, targets: seq<Target>)
    requires SavedFor(d, KEY) && DiskOk(d) && d.program == Some(OneEntry(targets))
    ensures var c := Restored(d, NOW + 1000, 0);
            && c.link == Link(OutageDetector.FRESH, false, false, 0, None) && c.waiting == Waiting(true, 0)
            && c.disk == d
            && !c.state.mode.Normal? && c.state.cutoffAt == EXPIRY
  {
    ExpiryIsRead();
    LoadedIsNotNormal(d.file.value);
    hide ParseState, ParseEpochSeconds, Render;
  }

  function Settling(): seq<Step> {
    [DoTick(Silent(NOW + 31000, 30000, false))] + [DoObserve(Playing(NOW + 40000), Answering(NOW + 40000, 0x32))]
  }

  lemma SentAfterSettling(lost: Core)
    requires !lost.link.reachable && Settled(DEFAULTS, lost, 30000) && Lost(DEFAULTS, lost)
    requires lost.disk.program == Some(OneEntry([TARGET]))
    ensures CanRun(DEFAULTS, Up(lost), Settling())
    ensures Sent(NODE, Id(0x32, 0), KEY, NOW + 40000) in EffectsOfRun(DEFAULTS, Up(lost), Settling())
  {
    SettlingTick(DEFAULTS, lost, NOW + 31000, 30000);
    hide Tick, Observe, Playing, Answering, OneEntry, CanRun, EffectsOfRun, Id, Silent;
    var settle := Silent(NOW + 31000, 30000, false);
    var t := Tick(DEFAULTS, lost, settle);
    EntryIsSent(t, [TARGET], NOW + 40000, 0x32, 0);
    EndsWith(t, Playing(NOW + 40000), Answering(NOW + 40000, 0x32));
    Onwards(DEFAULTS, Up(lost), DoTick(settle), [DoObserve(Playing(NOW + 40000), Answering(NOW + 40000, 0x32))]);
  }

  function SettleRun(): seq<Step> {
    [Crash([TARGET])] + ([DoStart(NOW + 1000, 0)] + (SILENCE + Settling()))
  }

  lemma SentAfterStart(d: Disk)
    requires SavedFor(d, KEY) && DiskOk(d) && d.program == Some(OneEntry([TARGET]))
    ensures CanRun(DEFAULTS, Down(d), [DoStart(NOW + 1000, 0)] + (SILENCE + Settling()))
    ensures Sent(NODE, Id(0x32, 0), KEY, NOW + 40000) in
            EffectsOfRun(DEFAULTS, Down(d), [DoStart(NOW + 1000, 0)] + (SILENCE + Settling()))
  {
    ResumedFrom(d, [TARGET]);
    var c := Restored(d, NOW + 1000, 0);
    hide SavedFor, DiskOk, Restored, OneEntry, CanRun, EffectsOfRun, SILENCE, Id, AfterSilence, Settling;
    LossIsConfirmed(c);
    SentAfterSettling(AfterSilence(c));
    ThroughSilence(c, Settling());
    Onwards(DEFAULTS, Down(d), DoStart(NOW + 1000, 0), SILENCE + Settling());
  }

  /** An entry recorded and read back as it should be; the coordinator silent, and FPP too for the settle window: then
      it names the entry once more, and it is sent once more. */
  lemma SettledEntryIsSentAgain()
    ensures CanRun(DEFAULTS, Up(Alone([TARGET])), SettleRun())
    ensures var effects := EffectsOfRun(DEFAULTS, Up(Alone([TARGET])), SettleRun());
            Sent(NODE, Id(0x31, 0), KEY, NOW) in effects && Sent(NODE, Id(0x32, 0), KEY, NOW + 40000) in effects
  {
    var targets := [TARGET];
    FirstIsSent(targets, 0);
    LeftIsOk(targets);
    LeftIffFits(targets);
    SingleFits();
    CrashLeaves(targets);
    hide SavedFor, RecordFits, DiskOk, Crash, Alone, Left, FirstTrace, OneEntry, CanRun, EffectsOfRun, SILENCE, Id,
         Settling, Playing, Answering;
    SentAfterStart(Left(targets));
    Onwards(DEFAULTS, Up(Alone(targets)), Crash(targets), [DoStart(NOW + 1000, 0)] + (SILENCE + Settling()));
  }
}
