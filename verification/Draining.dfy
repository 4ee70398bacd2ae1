/** The worker's drain (native/src/runtime.cpp): one callback at a time becomes an observation, and the drops nobody
    has acknowledged ride along until an observation is accepted. */
module Draining {
  import opened Basics
  import opened Ordering
  import opened CallbackQueue

  const MAX_COUNT := COUNTER_LIMIT - 1

  datatype PlaylistAction = Start | Playing | Stop | QueryNext | UnknownAction

  datatype Evidence = Evidence(playlistName: Bytes, action: PlaylistAction, truncated: bool, at: int)

  /** What an observation says of its entry; the gap is the count it reports. */
  datatype Observation = Observation(evidence: Evidence, resolved: bool, action: PlaylistAction, at: int,
                                     sequence: nat, gap: nat)

  /** saturatingAdd on 32 bits. */
  function SaturatingAdd(a: nat, b: nat): nat {
    if a + b > MAX_COUNT then MAX_COUNT else a + b
  }

  datatype Worker = Worker(
    queue: Queue<Evidence>, unacknowledged: nat, lastPlaying: Option<Observation>, playlistEnded: bool, sequence: nat)

  /** What the drain cannot foresee: whether the entry resolves, whether the executor holds posts back, whether the
      coordinator accepts. */
  datatype DrainEnv = DrainEnv(resolves: bool, suspended: bool, accepts: bool)

  /** What became of one drain: nothing to take, nothing to say, or an observation that was accepted or not. */
  datatype Outcome = Empty | Silent | Spoken(observation: Observation, accepted: bool)

  predicate RunEnded(e: Evidence) {
    e.playlistName == [] || e.action.Stop?
  }

  /** The observation that reports the end of a run: the entry that was playing, stopped. */
  function EndOf(playing: Observation, e: Evidence, sequence: nat, gap: nat): Observation {
    playing.(action := Stop, at := Max(e.at, playing.at), sequence := sequence, gap := gap)
  }

  function ObservationOf(e: Evidence, env: DrainEnv, sequence: nat, gap: nat): Observation {
    Observation(e, !e.truncated && env.resolves, e.action, e.at, sequence, gap)
  }

  /** drainOnce, behind a successful take. */
  function Handled(w: Worker, e: Evidence, env: DrainEnv): (Worker, Outcome) {
    if RunEnded(e) && w.playlistEnded && w.lastPlaying.None? then (w, Silent)
    else
      var ended := w.playlistEnded && e.playlistName == [];
      var sequence := w.sequence + 1;
      var accepted := !env.suspended && env.accepts;
      var carried := if accepted then 0 else w.unacknowledged;
      if RunEnded(e) && w.lastPlaying.Some? then
        (w.(lastPlaying := None, playlistEnded := true, sequence := sequence, unacknowledged := carried),
         Spoken(EndOf(w.lastPlaying.value, e, sequence, w.unacknowledged), accepted))
      else
        var o := ObservationOf(e, env, sequence, w.unacknowledged);
        var playing := o.resolved && (e.action.Playing? || e.action.Start?);
        (w.(lastPlaying := if playing then Some(o) else w.lastPlaying, playlistEnded := ended, sequence := sequence,
            unacknowledged := carried),
         Spoken(o, accepted))
  }

  /** drainOnce. */
  function Drained(w: Worker, env: DrainEnv): (Worker, Outcome) {
    if w.queue.pending == [] then (w, Empty)
    else
      Handled(w.(queue := Taken(w.queue), unacknowledged := SaturatingAdd(w.unacknowledged, w.queue.coalesced)),
              w.queue.pending[0], env)
  }

  class DrainingWorker {
    const handoff: CallbackHandoff<Evidence>
    var unacknowledged: nat
    var lastPlaying: Option<Observation>
    var playlistEnded: bool
    var sequence: nat
    var published: nat

    ghost predicate Valid()
      reads this, handoff
    {
      handoff.Valid()
    }

    ghost function View(): Worker
      requires Valid()
      reads this, handoff, handoff.slots
    {
      Worker(handoff.View(), unacknowledged, lastPlaying, playlistEnded, sequence)
    }

    constructor (handoff: CallbackHandoff<Evidence>, sequence: nat)
      requires handoff.Valid()
      ensures this.handoff == handoff && Valid()
      ensures View() == Worker(handoff.View(), 0, None, false, sequence)
    {
      this.handoff := handoff;
      this.unacknowledged, this.lastPlaying, this.playlistEnded, this.sequence, this.published :=
        0, None, false, sequence, 0;
    }

    method DrainOnce(env: DrainEnv) returns (outcome: Outcome)
      requires Valid()
      modifies this, handoff
      ensures Valid() && (View(), outcome) == Drained(old(View()), env)
    {
      hide EndOf, ObservationOf;
      var ok, evidence, dropped := handoff.Take();
      if !ok {
        return Empty;
      }
      unacknowledged := SaturatingAdd(unacknowledged, dropped);
      outcome := HandleEvidence(evidence, env);
    }

    method HandleEvidence(evidence: Evidence, env: DrainEnv) returns (outcome: Outcome)
      requires Valid()
      modifies this
      ensures Valid() && (View(), outcome) == Handled(old(View()), evidence, env)
    {
      var runEnded := evidence.playlistName == [] || evidence.action.Stop?;
      if runEnded && playlistEnded && lastPlaying.None? {
        return Silent;
      }
      if evidence.playlistName != [] {
        playlistEnded := false;
      }
      sequence := sequence + 1;
      var observation;
      if runEnded && lastPlaying.Some? {
        observation := EndOf(lastPlaying.value, evidence, sequence, unacknowledged);
        lastPlaying, playlistEnded := None, true;
      } else {
        observation := ObservationOf(evidence, env, sequence, unacknowledged);
        if observation.resolved && (evidence.action.Playing? || evidence.action.Start?) {
          lastPlaying := Some(observation);
        }
      }
      var accepted := !env.suspended && env.accepts;
      if accepted {
        if observation.resolved {
          published := published + 1;
        }
        unacknowledged := 0;
      }
      outcome := Spoken(observation, accepted);
    }
  }

  /* ---- Runs: offers by FPP, drains by the worker ---- */

  datatype Step = FppOffers(e: Evidence) | WorkerDrains(env: DrainEnv)

  /** A worker with its history: every drop, the gaps accepted observations reported, and those observations. */
  datatype Life = Life(worker: Worker, offered: nat, dropped: nat, acknowledged: nat, spoken: seq<Outcome>)

  function Stepped(l: Life, s: Step): Life
    requires |l.worker.queue.pending| <= l.worker.queue.capacity
  {
    match s
    case FppOffers(e) =>
      l.(worker := l.worker.(queue := Offered(l.worker.queue, e)), offered := l.offered + 1,
         dropped := l.dropped + if |l.worker.queue.pending| < l.worker.queue.capacity then 0 else 1)
    case WorkerDrains(env) =>
      var (w, o) := Drained(l.worker, env);
      l.(worker := w, acknowledged := l.acknowledged + (if o.Spoken? && o.accepted then o.observation.gap else 0),
         spoken := l.spoken + [o])
  }

  /** Every drop is still counted in the queue, waits unacknowledged, or was reported by an accepted observation. */
  ghost predicate Balanced(l: Life) {
    && l.worker.queue.capacity > 0 && |l.worker.queue.pending| <= l.worker.queue.capacity
    && l.dropped == l.worker.queue.coalesced + l.worker.unacknowledged + l.acknowledged
  }

  /** No drop goes unreported, on any path through the drain, as long as the counters hold them all. */
  lemma StepKeepsBalance(l: Life, s: Step)
    requires Balanced(l) && Stepped(l, s).dropped <= MAX_COUNT
    ensures Balanced(Stepped(l, s))
  {
  }

  /** Whatever becomes of a callback, its gap is either still carried or was accepted. */
  lemma HandlingKeepsGap(w: Worker, e: Evidence, env: DrainEnv)
    ensures var (d, o) := Handled(w, e, env);
            && d.queue == w.queue
            && w.unacknowledged == d.unacknowledged + if o.Spoken? && o.accepted then o.observation.gap else 0
  {
  }

  function SteppedAll(l: Life, steps: seq<Step>): Life
    requires Balanced(l) && Fits(l, steps)
    decreases |steps|
  {
    if steps == [] then l
    else
      StepKeepsBalance(l, steps[0]);
      SteppedAll(Stepped(l, steps[0]), steps[1..])
  }

  /** The run drops no more in all than a 32-bit counter holds. */
  ghost predicate Fits(l: Life, steps: seq<Step>)
    requires |l.worker.queue.pending| <= l.worker.queue.capacity && l.worker.queue.capacity > 0
    decreases |steps|
  {
    steps == [] || (Stepped(l, steps[0]).dropped <= MAX_COUNT && QueueKeepsBounds(l, steps[0])
                    && Fits(Stepped(l, steps[0]), steps[1..]))
  }

  predicate QueueKeepsBounds(l: Life, s: Step)
    requires |l.worker.queue.pending| <= l.worker.queue.capacity
  {
    var q := Stepped(l, s).worker.queue;
    |q.pending| <= q.capacity && q.capacity > 0
  }

  lemma {:induction false} GapsAreConserved(l: Life, steps: seq<Step>)
    requires Balanced(l) && Fits(l, steps)
    ensures Balanced(SteppedAll(l, steps))
    decreases |steps|
  {
    hide Stepped;
    if steps == [] {
    } else {
      StepKeepsBalance(l, steps[0]);
      GapsAreConserved(Stepped(l, steps[0]), steps[1..]);
    }
  }

  /** The end of a run is reported once, as the entry that was playing: after it, ends are silent until FPP names a
      playlist that does not stop. */
  lemma EndIsReportedOnce(w: Worker, e: Evidence, env: DrainEnv, f: Evidence, env2: DrainEnv)
    requires RunEnded(e) && w.lastPlaying.Some? && RunEnded(f)
    ensures var (d, o) := Handled(w, e, env);
            && o.Spoken? && o.observation.action.Stop? && o.observation.evidence == w.lastPlaying.value.evidence
            && o.observation.at >= e.at && o.observation.at >= w.lastPlaying.value.at
            && Handled(d, f, env2) == (d, Silent)
  {
  }

  /** Sequence numbers only rise, by one with every observation. */
  lemma SequencesRise(w: Worker, env: DrainEnv)
    ensures var (d, o) := Drained(w, env);
            if o.Spoken? then d.sequence == w.sequence + 1 == o.observation.sequence else d.sequence == w.sequence
  {
  }
}
