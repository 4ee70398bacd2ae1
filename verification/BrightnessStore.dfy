/** Brightness on disk (native/src/brightness_store.cpp, native/src/runtime.cpp): a closed weather gate, once flushed,
    survives a crash in a later flush, and exactly when it survives the loss of a file. */
module BrightnessStore {
  import opened Basics
  import opened Ordering
  import opened FileStore
  import opened Brightness

  datatype Loaded = NothingThere | Unreadable | Trusted(state: Payload) | Recovered(state: Payload)

  /** load: the primary whenever it is valid, the backup only when it is not. */
  function Load(f: Files<Payload>): Loaded {
    if f.primary.Valid? then Trusted(f.primary.record)
    else if f.backup.Valid? then Recovered(f.backup.record)
    else if f.primary.Missing? && f.backup.Missing? then NothingThere
    else Unreadable
  }

  datatype Gate = Gate(closed: bool, revision: nat)

  function GateOf(p: Payload): Gate {
    Gate(p.gateClosed, p.gateRevision)
  }

  /** The gate a start finds on disk. */
  function GateOnDisk(f: Files<Payload>): Gate {
    match Load(f)
    case Trusted(p) => GateOf(p)
    case Recovered(p) => GateOf(p)
    case _ => Gate(false, 0)
  }

  /** The engine a start makes of it (the runtime's constructor). */
  function Started(h: Hash, id: Bytes, f: Files<Payload>, safeCeilingPercent: int, now: int): Engine {
    match Load(f)
    case Trusted(p) => Brightness.Restored(h, Fresh(id), p, now).0
    case Recovered(p) => SafeSettled(h, Fresh(id), safeCeilingPercent, now, p.gateClosed, p.gateRevision)
    case Unreadable => SafeSettled(h, Fresh(id), safeCeilingPercent, now, false, 0)
    case NothingThere => Fresh(id)
  }

  /** Whatever was recoverable of the gate is the gate the host starts with. */
  lemma StartKeepsGate(h: Hash, id: Bytes, f: Files<Payload>, safeCeilingPercent: int, now: int)
    requires GateOnDisk(f).closed
    ensures var e := Started(h, id, f, safeCeilingPercent, now);
            e.gateClosed && e.gateRevision == Min(GateOnDisk(f).revision, MAX_GATE_REVISION)
  {
  }

  /** What a start shows. A good primary is restored; where it is spoiled, or gone while a backup is there, the host
      holds the ceiling it was set up with, a full gain, and the backup's gate if that can be read; where there never
      was a record it is all open. */
  lemma StartShows(h: Hash, id: Bytes, f: Files<Payload>, safeCeilingPercent: int, now: int, t: int)
    ensures var e := Started(h, id, f, safeCeilingPercent, now);
            var c, g := e.content.ceiling.ValueAt(t), e.content.gain.ValueAt(t);
            var never := f.primary.Missing? && f.backup.Missing?;
            && (f.primary.Valid? ==> e == Brightness.Restored(h, Fresh(id), f.primary.record, now).0)
            && (!f.primary.Valid? ==> g == 100.0 && e.id == id)
            && (!f.primary.Valid? && !never ==> c == ClampPercent(safeCeilingPercent as real) && e.revision == 1)
            && (!f.primary.Valid? && f.backup.Valid? ==>
                  e.gateClosed == f.backup.record.gateClosed
                  && e.gateRevision == Min(f.backup.record.gateRevision, MAX_GATE_REVISION))
            && (!f.primary.Valid? && !f.backup.Valid? ==> !e.gateClosed && e.gateRevision == 0)
            && (never ==> c == 100.0 && e.revision == 0)
  {
    hide Restored;
  }

  /* ---- Flushing ---- */

  /** What the flush remembers: the gate last written, and the engine revision. */
  datatype Memory = Memory(gate: Gate, everFlushed: bool, revision: int)

  /** How the writes of one flush fare. */
  datatype Tries = Tries(first: Attempt, second: Attempt)

  datatype Outcome = Outcome(files: Files<Payload>, memory: Memory, ok: bool)

  predicate Skips(m: Memory, p: Payload) {
    m.everFlushed && p.revision == m.revision
  }

  /** flushBrightnessState: skipped when nothing changed, and written twice when the gate did; what is remembered
      changes only when every write it needs succeeds. */
  function Flushed(f: Files<Payload>, m: Memory, p: Payload, t: Tries): Outcome {
    var done := Memory(GateOf(p), true, p.revision);
    if Skips(m, p) then Outcome(f, m, true)
    else
      var once := After(f, p, t.first);
      if !t.first.wrote then Outcome(once, m, false)
      else if m.gate == GateOf(p) then Outcome(once, done, true)
      else Outcome(After(once, p, t.second), if t.second.wrote then done else m, t.second.wrote)
  }

  /** A flush at the revision of the last one that worked touches nothing. Any other writes: its record is in the
      primary exactly if a write of it worked, it returns true exactly if every write it needs did, one for the same
      gate and two for another, and only then is it remembered. */
  lemma FlushMeans(f: Files<Payload>, m: Memory, p: Payload, t: Tries)
    ensures var o := Flushed(f, m, p, t); var again := m.everFlushed && m.revision == p.revision;
            var same := m.gate.closed == p.gateClosed && m.gate.revision == p.gateRevision;
            && (again ==> o == Outcome(f, m, true))
            && (!again ==> (o.ok <==> t.first.wrote && (same || t.second.wrote)))
            && (!again && t.first.wrote ==>
                  o.files.primary == Valid(p) || (!same && t.second.renamed && !t.second.wrote))
            && (!again && o.ok ==> o.memory == Memory(Gate(p.gateClosed, p.gateRevision), true, p.revision)
                                   && o.files.primary == Valid(p))
            && (!o.ok ==> o.memory == m)
  {
  }

  /** Everything a crash during a flush can leave. */
  ghost predicate FlushStage(f: Files<Payload>, m: Memory, p: Payload, g: Files<Payload>) {
    if Skips(m, p) then g == f
    else
      || Stage(f, p, g)
      || (m.gate != GateOf(p) && (Stage(After(f, p, Attempt(true, true)), p, g)
                                  || Stage(After(f, p, Attempt(false, true)), p, g)))
  }

  class BrightnessFlusher {
    const files: TwoFiles<Payload>
    var storedGate: Gate
    var everFlushed: bool
    var flushedRevision: int

    ghost function View(): Memory
      reads this
    {
      Memory(storedGate, everFlushed, flushedRevision)
    }

    constructor (files: TwoFiles<Payload>)
      ensures this.files == files && View() == Memory(GateOnDisk(files.View()), false, 0)
    {
      this.files := files;
      this.everFlushed, this.flushedRevision := false, 0;
      this.storedGate := if files.primary.Valid? then GateOf(files.primary.record)
                         else if files.backup.Valid? then GateOf(files.backup.record) else Gate(false, 0);
    }

    method Flush(state: Payload, t: Tries) returns (ok: bool)
      modifies this, files
      ensures Outcome(files.View(), View(), ok) == Flushed(old(files.View()), old(View()), state, t)
    {
      if everFlushed && state.revision == flushedRevision {
        return true;
      }
      ok := files.WriteWithBackupRotation(state, t.first);
      if ok && storedGate != GateOf(state) {
        ok := files.WriteWithBackupRotation(state, t.second);
      }
      if ok {
        storedGate, everFlushed, flushedRevision := GateOf(state), true, state.revision;
      }
    }
  }

  /* ---- What one flush leaves ---- */

  predicate Holds(f: File<Payload>, g: Gate) {
    f.Valid? && GateOf(f.record) == g
  }

  /** Both files hold a record, and both records hold this gate. */
  predicate BothHold(f: Files<Payload>, g: Gate) {
    Holds(f.primary, g) && Holds(f.backup, g)
  }

  /** What the first write of a flush puts, or leaves, behind the new record. */
  function Behind(f: Files<Payload>, first: Attempt): File<Payload> {
    if first.renamed && f.primary.Valid? then f.primary else f.backup
  }

  /** When a flush that wrote leaves its gate in both files: exactly if it wrote twice and rotated in between, or the
      record behind the new one holds the gate already. Its own file holds it always. */
  lemma BothHoldIff(f: Files<Payload>, m: Memory, p: Payload, t: Tries)
    requires !Skips(m, p) && Flushed(f, m, p, t).ok
    ensures Holds(Flushed(f, m, p, t).files.primary, GateOf(p))
    ensures BothHold(Flushed(f, m, p, t).files, GateOf(p)) <==>
            (m.gate != GateOf(p) && t.second.renamed) || Holds(Behind(f, t.first), GateOf(p))
  {
  }

  /** Rotations that fail alone are passed over: a close written twice that way returns true, and is lost with the
      primary, as the backup still holds the open gate. */
  lemma RotationsPassedOver(h: Hash, id: Bytes, f: Files<Payload>, m: Memory, p: Payload, damaged: File<Payload>,
                            safeCeilingPercent: int, now: int)
    requires BothHold(f, m.gate) && !m.gate.closed && p.gateClosed && !Skips(m, p) && !damaged.Valid?
    ensures var o := Flushed(f, m, p, Tries(Attempt(false, true), Attempt(false, true)));
            && o.ok && GateOnDisk(o.files) == GateOf(p)
            && GateOnDisk(o.files.(primary := damaged)) == m.gate
            && !Started(h, id, o.files.(primary := damaged), safeCeilingPercent, now).gateClosed
  {
  }

  /** A crash in a flush that changes the gate leaves the old gate or the new one, never a third. */
  lemma GateChangesWhole(f: Files<Payload>, m: Memory, p: Payload, left: Files<Payload>)
    requires FlushStage(f, m, p, left)
    ensures GateOnDisk(left) == GateOnDisk(f) || GateOnDisk(left) == GateOf(p)
  {
  }

  /** Written once only, a gate change would be lost with the primary: the backup still holds the old gate. */
  lemma OneWriteIsNotEnough(f: Files<Payload>, p: Payload)
    requires f.primary.Valid? && !GateOf(f.primary.record).closed && p.gateClosed
    ensures !GateOnDisk(FileStore.Stored(f, p).(primary := Garbage)).closed
  {
  }

  /* ---- What flushes may rely on: how an engine's gate and revision move ---- */

  /** The gate and the revision of the engine when it was last looked at. */
  datatype Sight = Sight(gate: Gate, revision: int)

  function SightOf(p: Payload): Sight {
    Sight(GateOf(p), p.revision)
  }

  /** The revision never falls, and it moves with the gate. */
  predicate Moves(s: Sight, p: Payload) {
    s.revision <= p.revision && (p.revision == s.revision ==> GateOf(p) == s.gate)
  }

  /** And a gate that changes has a greater revision of its own. */
  predicate Follows(s: Sight, p: Payload) {
    Moves(s, p) && (GateOf(p) == s.gate || p.gateRevision > s.gate.revision)
  }

  /** Every command, frame and adoption of an engine keeps to the first, and to the second (a received state has a gate
      revision in bounds) but for one case: a write that turns the gate at the greatest gate revision there is. */
  lemma EngineFollows(h: Hash, e: Engine, cmd: Command, p: Payload, now: int, later: int)
    requires e.gateRevision <= MAX_GATE_REVISION && p.gateRevision <= MAX_GATE_REVISION
    ensures Moves(SightOf(Captured(e, now)), Captured(Commanded(h, e, cmd, now), later))
    ensures Follows(SightOf(Captured(e, now)), Captured(Commanded(h, e, cmd, now), later)) <==>
            !(cmd.SetWeatherGate? && cmd.closed != e.gateClosed && e.gateRevision == MAX_GATE_REVISION)
    ensures Follows(SightOf(Captured(e, now)), Captured(Adopt(h, e, p, now).0, later))
    ensures Follows(SightOf(Captured(e, now)), Captured(FrameApplied(e, now), later))
  {
  }

  /* ---- What memory says of the disk ---- */

  /** While the engine is at the revision last flushed, the primary holds its gate. */
  ghost predicate Tied(f: Files<Payload>, m: Memory, s: Sight) {
    m.everFlushed ==>
      m.revision <= s.revision && (m.revision == s.revision ==> m.gate == s.gate && Holds(f.primary, m.gate))
  }

  /** And what memory says of a closed gate the disk bears out, as long as no other gate has been seen since. */
  ghost predicate Consistent(f: Files<Payload>, m: Memory, s: Sight) {
    && Tied(f, m, s)
    && m.gate.revision <= s.gate.revision && (m.gate.revision == s.gate.revision ==> m.gate == s.gate)
    && (m.gate.closed && m.gate == s.gate ==> GateOnDisk(f) == m.gate)
  }

  /** Whatever fails in it, a flush keeps both, and one that returns true leaves its gate where a start looks first. */
  lemma FlushKeeps(f: Files<Payload>, m: Memory, s: Sight, p: Payload, t: Tries)
    requires Tied(f, m, s) && Moves(s, p)
    ensures var o := Flushed(f, m, p, t);
            && Tied(o.files, o.memory, SightOf(p))
            && (o.ok ==> Holds(o.files.primary, GateOf(p)) && o.memory.gate == GateOf(p))
            && (Consistent(f, m, s) && Follows(s, p) ==> Consistent(o.files, o.memory, SightOf(p)))
  {
  }

  /** One flush of a series: what was captured, and how its writes fared. */
  datatype Turn = Turn(state: Payload, tries: Tries)

  function FlushedAll(f: Files<Payload>, m: Memory, turns: seq<Turn>): (Files<Payload>, Memory)
    decreases |turns|
  {
    if turns == [] then (f, m)
    else
      var o := Flushed(f, m, turns[0].state, turns[0].tries);
      FlushedAll(o.files, o.memory, turns[1..])
  }

  /** A series of captures of one engine. */
  ghost predicate Ascending(s: Sight, turns: seq<Turn>)
    decreases |turns|
  {
    turns == [] || (Moves(s, turns[0].state) && Ascending(SightOf(turns[0].state), turns[1..]))
  }

  /** One in which gate revisions rise with every turn of the gate. */
  ghost predicate InOrder(s: Sight, turns: seq<Turn>)
    decreases |turns|
  {
    turns == [] || (Follows(s, turns[0].state) && InOrder(SightOf(turns[0].state), turns[1..]))
  }

  function LastSight(s: Sight, turns: seq<Turn>): Sight {
    if turns == [] then s else SightOf(turns[|turns| - 1].state)
  }

  lemma {:induction false} InOrderAscends(s: Sight, turns: seq<Turn>)
    requires InOrder(s, turns)
    ensures Ascending(s, turns)
    decreases |turns|
  {
    if turns == [] {
    } else {
      InOrderAscends(SightOf(turns[0].state), turns[1..]);
    }
  }

  /** The turns before one, and how that one goes on from them. */
  lemma {:induction false} UpTo(s: Sight, turns: seq<Turn>, k: nat)
    requires Ascending(s, turns) && k < |turns|
    ensures Ascending(s, turns[..k]) && Moves(LastSight(s, turns[..k]), turns[k].state)
    ensures InOrder(s, turns) ==> InOrder(s, turns[..k]) && Follows(LastSight(s, turns[..k]), turns[k].state)
    decreases |turns|
  {
    if k == 0 {
    } else {
      UpTo(SightOf(turns[0].state), turns[1..], k - 1);
      assert turns[..k][1..] == turns[1..][..k - 1];
    }
  }

  /** So does every series of flushes, failed and half-failed ones among them. */
  lemma {:induction false} FlushesKeep(f: Files<Payload>, m: Memory, s: Sight, turns: seq<Turn>)
    requires Tied(f, m, s) && Ascending(s, turns)
    ensures var (g, n) := FlushedAll(f, m, turns);
            && Tied(g, n, LastSight(s, turns))
            && (Consistent(f, m, s) && InOrder(s, turns) ==> Consistent(g, n, LastSight(s, turns)))
    decreases |turns|
  {
    hide Tied, Consistent, Flushed, Moves, Follows;
    if turns == [] {
    } else {
      FlushKeeps(f, m, s, turns[0].state, turns[0].tries);
      var o := Flushed(f, m, turns[0].state, turns[0].tries);
      FlushesKeep(o.files, o.memory, SightOf(turns[0].state), turns[1..]);
    }
  }

  function AtStart(f: Files<Payload>): Memory {
    Memory(GateOnDisk(f), false, 0)
  }

  lemma {:induction false} FlushedOneMore(f: Files<Payload>, m: Memory, turns: seq<Turn>, last: Turn)
    ensures var (g, n) := FlushedAll(f, m, turns);
            var o := Flushed(g, n, last.state, last.tries);
            FlushedAll(f, m, turns + [last]) == (o.files, o.memory)
    decreases |turns|
  {
    hide Flushed;
    if turns == [] {
      assert [last][1..] == [];
    } else {
      var o := Flushed(f, m, turns[0].state, turns[0].tries);
      FlushedOneMore(o.files, o.memory, turns[1..], last);
      assert (turns + [last])[1..] == turns[1..] + [last];
    }
  }

  /* ---- The flush that wrote what is there ---- */

  /** The k-th flush of the series wrote, returned true, and left what the whole series leaves. */
  ghost predicate WroteIt(f: Files<Payload>, m: Memory, turns: seq<Turn>, k: nat) {
    k < |turns| &&
    var (g, n) := FlushedAll(f, m, turns[..k]);
    var o := Flushed(g, n, turns[k].state, turns[k].tries);
    !Skips(n, turns[k].state) && o.ok && FlushedAll(f, m, turns) == (o.files, o.memory)
  }

  /** A series that ends where a flush would be skipped ends with what some flush of it wrote at that revision, or
      began so and changed nothing. */
  lemma {:induction false} SkippedWasWritten(f: Files<Payload>, m: Memory, s: Sight, turns: seq<Turn>, p: Payload)
    requires Tied(f, m, s) && Ascending(s, turns) && Moves(LastSight(s, turns), p)
    requires Skips(FlushedAll(f, m, turns).1, p)
    ensures || (Skips(m, p) && FlushedAll(f, m, turns) == (f, m))
            || exists k: nat :: WroteIt(f, m, turns, k) && turns[k].state.revision == p.revision
    decreases |turns|
  {
    if turns == [] {
    } else {
      var t, later := turns[0], turns[1..];
      var o := Flushed(f, m, t.state, t.tries);
      FlushKeeps(f, m, s, t.state, t.tries);
      SkippedWasWritten(o.files, o.memory, SightOf(t.state), later, p);
      NeverBack(SightOf(t.state), later, p);
      if k: nat :| WroteIt(o.files, o.memory, later, k) && later[k].state.revision == p.revision {
        assert turns[..k + 1][1..] == later[..k];
        assert WroteIt(f, m, turns, k + 1);
      } else if o.ok && !Skips(m, t.state) {
        assert turns[..0] == [];
        assert WroteIt(f, m, turns, 0);
      }
    }
  }

  lemma {:induction false} NeverBack(s: Sight, turns: seq<Turn>, p: Payload)
    requires Ascending(s, turns) && Moves(LastSight(s, turns), p)
    ensures s.revision <= p.revision
    decreases |turns|
  {
    if turns == [] {
    } else {
      NeverBack(SightOf(turns[0].state), turns[1..], p);
    }
  }

  /** Since the start, a flush that returns true has its gate in the primary, and one of the series wrote what is there
      at its revision: it itself, or the one it had no need to repeat. */
  lemma TrueFlushWasWritten(f: Files<Payload>, s: Sight, turns: seq<Turn>, last: Turn)
    requires Ascending(s, turns) && Moves(LastSight(s, turns), last.state)
    requires var (g, n) := FlushedAll(f, AtStart(f), turns); Flushed(g, n, last.state, last.tries).ok
    ensures var (d, n) := FlushedAll(f, AtStart(f), turns + [last]);
            Holds(d.primary, GateOf(last.state)) && n.gate == GateOf(last.state)
    ensures exists k: nat :: WroteIt(f, AtStart(f), turns + [last], k)
                             && (turns + [last])[k].state.revision == last.state.revision
                             && GateOf((turns + [last])[k].state) == GateOf(last.state)
  {
    hide Flushed, Moves, Tied;
    var m, all := AtStart(f), turns + [last];
    assert Tied(f, m, s) by {
      StartIsTied(f, s);
    }
    FlushesKeep(f, m, s, turns);
    FlushedOneMore(f, m, turns, last);
    var (g, n) := FlushedAll(f, m, turns);
    FlushKeeps(g, n, LastSight(s, turns), last.state, last.tries);
    if Skips(n, last.state) {
      SkippedIsSame(g, n, last.state, last.tries);
      SkippedWasWritten(f, m, s, turns, last.state);
      var k: nat :| WroteIt(f, m, turns, k) && turns[k].state.revision == last.state.revision;
      assert all[..k] == turns[..k];
      WroteItsGate(f, m, turns, k);
      assert WroteIt(f, m, all, k) && all[k] == turns[k];
    } else {
      assert all[..|turns|] == turns;
      assert WroteIt(f, m, all, |turns|);
    }
  }

  lemma StartIsTied(f: Files<Payload>, s: Sight)
    ensures Tied(f, AtStart(f), s)
    ensures s.gate == GateOnDisk(f) ==> Consistent(f, AtStart(f), s)
  {
  }

  lemma SkippedIsSame(f: Files<Payload>, m: Memory, p: Payload, t: Tries)
    requires Skips(m, p)
    ensures Flushed(f, m, p, t) == Outcome(f, m, true)
  {
  }

  lemma WroteItsGate(f: Files<Payload>, m: Memory, turns: seq<Turn>, k: nat)
    requires WroteIt(f, m, turns, k)
    ensures FlushedAll(f, m, turns).1.gate == GateOf(turns[k].state)
  {
  }

  /* ---- The gate survives ---- */

  /** Whether a flush puts the gate it writes behind its new record too, as the files and memory stand before it. */
  predicate Backs(f: Files<Payload>, m: Memory, p: Payload, t: Tries) {
    if m.gate == GateOf(p) then f.primary.Valid? ==> t.first.renamed || Holds(f.backup, GateOf(p))
    else t.second.renamed || Holds(Behind(f, t.first), GateOf(p))
  }

  /** Rotation works wherever the write it belongs to does. */
  predicate Rotates(t: Tries) {
    (t.first.wrote ==> t.first.renamed) && (t.second.wrote ==> t.second.renamed)
  }

  lemma BackedIff(f: Files<Payload>, m: Memory, s: Sight, p: Payload, t: Tries)
    requires Consistent(f, m, s) && Follows(s, p) && !Skips(m, p) && Flushed(f, m, p, t).ok && p.gateClosed
    ensures BothHold(Flushed(f, m, p, t).files, GateOf(p)) <==> Backs(f, m, p, t)
    ensures Rotates(t) ==> Backs(f, m, p, t)
  {
    BothHoldIff(f, m, p, t);
  }

  /** The loss of one file, from any start and after any flushes, failed, half-failed and unrotated ones among them:
      with a closed gate flushed, that of the backup never matters, and that of the primary does not exactly if the
      flush that wrote what is there backed the gate. Rotations that work in that flush are enough. */
  lemma GateSurvivesLossIff(f: Files<Payload>, revision: int, turns: seq<Turn>, k: nat, damaged: File<Payload>)
    requires InOrder(Sight(GateOnDisk(f), revision), turns) && WroteIt(f, AtStart(f), turns, k)
    requires turns[k].state.gateClosed && !damaged.Valid?
    ensures var (d, _) := FlushedAll(f, AtStart(f), turns);
            var (g, n) := FlushedAll(f, AtStart(f), turns[..k]);
            && GateOnDisk(d.(backup := damaged)) == GateOf(turns[k].state)
            && (GateOnDisk(d.(primary := damaged)) == GateOf(turns[k].state) <==>
                Backs(g, n, turns[k].state, turns[k].tries))
            && (Rotates(turns[k].tries) ==> BothHold(d, GateOf(turns[k].state)))
  {
    hide Flushed, Follows, Moves, Consistent, Tied, Backs, Rotates;
    var s := Sight(GateOnDisk(f), revision);
    InOrderAscends(s, turns);
    UpTo(s, turns, k);
    StartIsTied(f, s);
    FlushesKeep(f, AtStart(f), s, turns[..k]);
    var (g, n) := FlushedAll(f, AtStart(f), turns[..k]);
    BothHoldIff(g, n, turns[k].state, turns[k].tries);
    BackedIff(g, n, LastSight(s, turns[..k]), turns[k].state, turns[k].tries);
  }

  /** The gate is in the backup, and no primary says otherwise. */
  predicate Held(f: Files<Payload>, g: Gate) {
    Holds(f.backup, g) && (f.primary.Valid? ==> Holds(f.primary, g))
  }

  /** From then on, as long as the gate is kept: later flushes leave it held, failed ones and failed rotations too, and
      so does a crash at any of their stages. */
  lemma {:induction false} HeldGateStays(f: Files<Payload>, m: Memory, g: Gate, turns: seq<Turn>, p: Payload,
                                         left: Files<Payload>)
    requires Held(f, g) && m.gate == g && GateOf(p) == g && forall t :: t in turns ==> GateOf(t.state) == g
    requires var (d, n) := FlushedAll(f, m, turns); FlushStage(d, n, p, left)
    ensures var (d, n) := FlushedAll(f, m, turns); Held(d, g) && n.gate == g
    ensures Held(left, g)
    decreases |turns|
  {
    if turns == [] {
    } else {
      assert turns[0] in turns && forall t :: t in turns[1..] ==> t in turns;
      var o := Flushed(f, m, turns[0].state, turns[0].tries);
      HeldGateStays(o.files, o.memory, g, turns[1..], p, left);
    }
  }

  /** What a held gate is worth: a start finds it, and so does one after the loss or corruption of the primary; after
      that of the backup exactly if there is a primary. */
  lemma HeldGateIsFound(f: Files<Payload>, g: Gate, damaged: File<Payload>)
    requires Held(f, g) && g.closed && !damaged.Valid?
    ensures GateOnDisk(f) == g && GateOnDisk(f.(primary := damaged)) == g
    ensures GateOnDisk(f.(backup := damaged)) == g <==> f.primary.Valid?
  {
  }

  /** A closed gate that a start would find it finds still, after later flushes that keep the gate and a crash at any
      stage of another, whatever fails in them. */
  lemma {:induction false} FoundGateStays(f: Files<Payload>, m: Memory, g: Gate, turns: seq<Turn>, p: Payload,
                                          left: Files<Payload>)
    requires GateOnDisk(f) == g && g.closed && m.gate == g && GateOf(p) == g
    requires forall t :: t in turns ==> GateOf(t.state) == g
    requires var (d, n) := FlushedAll(f, m, turns); FlushStage(d, n, p, left)
    ensures GateOnDisk(left) == g
    decreases |turns|
  {
    if turns == [] {
    } else {
      assert turns[0] in turns && forall t :: t in turns[1..] ==> t in turns;
      var o := Flushed(f, m, turns[0].state, turns[0].tries);
      FoundGateStays(o.files, o.memory, g, turns[1..], p, left);
    }
  }

  /** End to end: whatever the files held before the start and whatever failed since, once a flush has returned true
      with the gate closed, a crash at any stage of any later flush that keeps the gate restarts closed at its
      revision. */
  lemma RestartsClosed(h: Hash, id: Bytes, f: Files<Payload>, s: Sight, turns: seq<Turn>, last: Turn,
                       later: seq<Turn>, next: Payload, left: Files<Payload>, safeCeilingPercent: int, now: int)
    requires Ascending(s, turns) && Moves(LastSight(s, turns), last.state)
    requires last.state.gateClosed && last.state.gateRevision <= MAX_GATE_REVISION
    requires GateOf(next) == GateOf(last.state) && forall t :: t in later ==> GateOf(t.state) == GateOf(last.state)
    requires var (g, n) := FlushedAll(f, AtStart(f), turns);
             var o := Flushed(g, n, last.state, last.tries);
             o.ok && var (d, k) := FlushedAll(o.files, o.memory, later); FlushStage(d, k, next, left)
    ensures var e := Started(h, id, left, safeCeilingPercent, now);
            e.gateClosed && e.gateRevision == last.state.gateRevision
  {
    hide Flushed, Moves, FlushedAll, FlushStage, Started;
    TrueFlushWasWritten(f, s, turns, last);
    FlushedOneMore(f, AtStart(f), turns, last);
    var (d, n) := FlushedAll(f, AtStart(f), turns + [last]);
    FoundGateStays(d, n, GateOf(last.state), later, next, left);
    StartKeepsGate(h, id, left, safeCeilingPercent, now);
  }

  /** And straight after that flush the backup can be lost or corrupted, and so can the primary if the flush that wrote
      what is there backed the gate. */
  lemma RestartsClosedAfterLoss(h: Hash, id: Bytes, f: Files<Payload>, revision: int, turns: seq<Turn>, k: nat,
                                damaged: File<Payload>, safeCeilingPercent: int, now: int)
    requires InOrder(Sight(GateOnDisk(f), revision), turns) && WroteIt(f, AtStart(f), turns, k)
    requires turns[k].state.gateClosed && turns[k].state.gateRevision <= MAX_GATE_REVISION && !damaged.Valid?
    ensures var (d, _) := FlushedAll(f, AtStart(f), turns);
            var (g, n) := FlushedAll(f, AtStart(f), turns[..k]);
            forall left ::
              || left == d.(backup := damaged)
              || (left == d.(primary := damaged) && Backs(g, n, turns[k].state, turns[k].tries)) ==>
              var e := Started(h, id, left, safeCeilingPercent, now);
              e.gateClosed && e.gateRevision == turns[k].state.gateRevision
  {
    hide Flushed, Follows, FlushedAll, GateOnDisk, Started, Backs, InOrder;
    GateSurvivesLossIff(f, revision, turns, k, damaged);
    var (d, _) := FlushedAll(f, AtStart(f), turns);
    var (g, n) := FlushedAll(f, AtStart(f), turns[..k]);
    StartKeepsGate(h, id, d.(backup := damaged), safeCeilingPercent, now);
    if Backs(g, n, turns[k].state, turns[k].tries) {
      StartKeepsGate(h, id, d.(primary := damaged), safeCeilingPercent, now);
    }
  }

  /** What happens where gates no longer rise: at the greatest revision a gate can be opened, half written, and closed
      again, and that close is written once only; with the primary it is lost, although its flush returned true. */
  lemma CloseAtTheCapIsLost(f: Files<Payload>, m: Memory, open: Payload, close: Payload, opens: Tries, closes: Tries)
    requires BothHold(f, m.gate) && m.everFlushed && m.gate == GateOf(close) && close.gateClosed
    requires GateOf(open) == Gate(false, MAX_GATE_REVISION) && close.gateRevision == MAX_GATE_REVISION
    requires m.revision < open.revision < close.revision
    requires opens.first == Attempt(true, true) && !opens.second.wrote && !opens.second.renamed
    requires closes.first == Attempt(true, true)
    ensures var half := Flushed(f, m, open, opens);
            var o := Flushed(half.files, half.memory, close, closes);
            && o.ok && !half.ok && GateOnDisk(o.files) == GateOf(close)
            && GateOnDisk(o.files.(primary := Garbage)) == GateOf(open)
            && !Follows(SightOf(open), close)
  {
  }
}
