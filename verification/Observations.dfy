/** What a drain reports (native/src/runtime.cpp:324-455), of the callback it took and of what was reported before. */
module Observations {
  import opened Basics
  import opened Draining

  /** FPP reports the end of a run as a stop, or with no playlist named. */
  predicate IsEnd(e: Evidence) {
    e.action.Stop? || e.playlistName == []
  }

  /** The end of a run is reported as the entry that was playing, stopped, no earlier than that entry was seen; every
      other callback as what it says itself, identified if its texts are whole and its entry is found. Only the end of a
      run that is over already goes unreported. */
  lemma DrainSays(w: Worker, env: DrainEnv)
    requires w.queue.pending != []
    ensures var (v, o) := Drained(w, env);
            var e := w.queue.pending[0]; var ends := IsEnd(e) && w.lastPlaying.Some?;
            && v.queue.pending == w.queue.pending[1..]
            && (o.Silent? || o.Spoken?) && (o.Silent? <==> IsEnd(e) && w.lastPlaying.None? && w.playlistEnded)
            && (o.Spoken? ==>
                  && o.observation.sequence == w.sequence + 1
                  && o.observation.gap == Min(w.unacknowledged + w.queue.coalesced, 0xFFFF_FFFF)
                  && (o.accepted <==> !env.suspended && env.accepts))
            && (ends ==> o.Spoken? && o.observation.action.Stop?
                         && o.observation.evidence == w.lastPlaying.value.evidence
                         && o.observation.resolved == w.lastPlaying.value.resolved
                         && o.observation.at == Max(e.at, w.lastPlaying.value.at))
            && (o.Spoken? && !ends ==>
                  o.observation.evidence == e && o.observation.action == e.action && o.observation.at == e.at
                  && (o.observation.resolved <==> !e.truncated && env.resolves))
            && (v.playlistEnded <==> ends || o.Silent? || (w.playlistEnded && e.playlistName == []))
  {
  }

  /* ---- The entry that is playing, in terms of what was reported ---- */

  /** A report that names the entry now playing. */
  predicate Names(o: Outcome) {
    o.Spoken? && o.observation.resolved && (o.observation.action.Start? || o.observation.action.Playing?)
  }

  predicate Stops(o: Outcome) {
    o.Spoken? && o.observation.action.Stop?
  }

  /** The latest report that names an entry, with no stop since. */
  ghost predicate NamedLast(spoken: seq<Outcome>, k: nat) {
    k < |spoken| && Names(spoken[k]) && forall j :: k < j < |spoken| ==> !Names(spoken[j]) && !Stops(spoken[j])
  }

  /** The worker remembers that one as the entry playing, and none if there is none. */
  ghost predicate Remembers(l: Life) {
    && (forall k: nat :: NamedLast(l.spoken, k) ==> l.worker.lastPlaying == Some(l.spoken[k].observation))
    && (l.worker.lastPlaying.Some? ==> exists k: nat :: NamedLast(l.spoken, k))
  }

  lemma {:induction false} RunRemembers(l: Life, steps: seq<Step>)
    requires Balanced(l) && Fits(l, steps) && Remembers(l)
    ensures Remembers(SteppedAll(l, steps))
    decreases |steps|
  {
    hide Stepped, Remembers;
    if steps == [] {
    } else {
      StepKeepsBalance(l, steps[0]);
      StepRemembers(l, steps[0]);
      RunRemembers(Stepped(l, steps[0]), steps[1..]);
    }
  }

  lemma StepRemembers(l: Life, s: Step)
    requires |l.worker.queue.pending| <= l.worker.queue.capacity && Remembers(l)
    ensures Remembers(Stepped(l, s))
  {
    if s.WorkerDrains? {
      var (v, o) := Drained(l.worker, s.env);
      OneMore(l.spoken, o);
      LastPlayingAfter(l.worker, s.env);
      hide Drained;
      if Names(o) {
        assert NamedLast(l.spoken + [o], |l.spoken|);
      } else if v.lastPlaying.Some? {
        var k: nat :| NamedLast(l.spoken, k);
        assert NamedLast(l.spoken + [o], k);
      }
    }
  }

  lemma LastPlayingAfter(w: Worker, env: DrainEnv)
    ensures var (v, o) := Drained(w, env);
            v.lastPlaying == if Names(o) then Some(o.observation) else if Stops(o) then None else w.lastPlaying
  {
  }

  lemma OneMore(spoken: seq<Outcome>, o: Outcome)
    ensures forall k: nat :: NamedLast(spoken + [o], k) <==>
              if Names(o) then k == |spoken| else !Stops(o) && NamedLast(spoken, k)
  {
    forall k: nat
      ensures NamedLast(spoken + [o], k) <==>
              if Names(o) then k == |spoken| else !Stops(o) && NamedLast(spoken, k)
    {
      var more := spoken + [o];
      assert more[|spoken|] == o;
      assert forall j :: 0 <= j < |spoken| ==> more[j] == spoken[j];
    }
  }
}
