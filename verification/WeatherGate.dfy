/** The weather gate over whole runs: peers can close a gate, only a coordinator write opens one. */
module WeatherGate {
  import opened Basics
  import opened Brightness
  import opened MultiSync
  import Convergence

  predicate WritesGate(step: Step, closed: bool) {
    step.Issue? && step.cmd.SetWeatherGate? && step.cmd.closed == closed
  }

  /** A gate opens in exactly one way, and closes in exactly two. */
  lemma GateChanges(h: Hash, net: Net, step: Step, i: nat)
    requires Inv(h, net) && Enabled(net, step) && i < |net.nodes|
    ensures var was, becomes := net.nodes[i].engine, Next(h, net, step).nodes[i].engine;
            && (was.gateClosed && !becomes.gateClosed <==> was.gateClosed && WritesGate(step, false) && step.node == i)
            && (!was.gateClosed && becomes.gateClosed <==>
                  && !was.gateClosed
                  && ((WritesGate(step, true) && step.node == i) ||
                      (&& step.Deliver?
                       && step.copy.to == i
                       && step.copy.msg.payload.gateClosed
                       && step.copy.msg.payload.gateRevision > was.gateRevision)))
  {
    if step.Deliver? {
      assert MsgOk(net, step.copy.msg);
    }
  }

  /** What one write does to one gate revision, and that no other command touches it. */
  lemma WriteRaisesRevision(h: Hash, e: Engine, cmd: Command, now: int)
    requires e.gateRevision <= MAX_GATE_REVISION
    ensures !cmd.SetWeatherGate? ==>
              && Commanded(h, e, cmd, now).gateRevision == e.gateRevision
              && Commanded(h, e, cmd, now).gateClosed == e.gateClosed
    ensures cmd.SetWeatherGate? ==>
              && Commanded(h, e, cmd, now).gateClosed == cmd.closed
              && Commanded(h, e, cmd, now).gateRevision <= Max(e.gateRevision + 1, cmd.revision)
              && e.gateRevision <= Commanded(h, e, cmd, now).gateRevision
              && (e.gateRevision < MAX_GATE_REVISION ==> e.gateRevision < Commanded(h, e, cmd, now).gateRevision)
              && (cmd.revision <= MAX_GATE_REVISION ==> cmd.revision <= Commanded(h, e, cmd, now).gateRevision)
  {
  }

  /** Host i is open, and every closed gate that is held, or in flight to a host that would take it, is no newer. */
  ghost predicate Unclosable(net: Net, i: nat) {
    && i < |net.nodes|
    && !net.nodes[i].engine.gateClosed
    && NothingNewer(net, i, net.nodes[i].engine.gateRevision)
  }

  /** No host but i holds a closed gate newer than r, and none that is newer is in flight to a host that would take
      it, if host i were at r. */
  ghost predicate NothingNewer(net: Net, i: nat, r: nat) {
    && (forall j: nat | j < |net.nodes| && j != i :: HoldsNoNewer(net.nodes[j].engine, r))
    && (forall c <- net.inFlight :: BringsNoNewer(net, c, i, r))
  }

  predicate HoldsNoNewer(e: Engine, r: nat) {
    e.gateClosed ==> e.gateRevision <= r
  }

  ghost predicate BringsNoNewer(net: Net, c: Copy, i: nat, r: nat) {
    c.msg.payload.gateClosed && c.msg.payload.gateRevision > r ==>
      c.to != i && c.to < |net.nodes| && c.msg.payload.gateRevision <= net.nodes[c.to].engine.gateRevision
  }

  lemma IssueKeepsOpen(h: Hash, net: Net, step: Step, i: nat)
    requires Inv(h, net) && Enabled(net, step) && Unclosable(net, i) && step.Issue? && !WritesGate(step, true)
    ensures Unclosable(Next(h, net, step), i)
  {
    assert NodeOk(h, net, step.node);
    WriteRaisesRevision(h, net.nodes[step.node].engine, step.cmd, step.now);
    hide Commanded, NodeOk;
    var next := Next(h, net, step);
    forall c <- next.inFlight
      ensures BringsNoNewer(next, c, i, next.nodes[i].engine.gateRevision)
    {
      assert BringsNoNewer(net, c, i, net.nodes[i].engine.gateRevision);
    }
  }

  lemma DeliverKeepsOpen(h: Hash, net: Net, step: Step, i: nat)
    requires Inv(h, net) && Enabled(net, step) && Unclosable(net, i) && step.Deliver?
    ensures Unclosable(Next(h, net, step), i)
  {
    var c := step.copy;
    assert MsgOk(net, c.msg) && NodeOk(h, net, c.to);
    AdoptByKey(h, net.nodes[c.to].engine, c.msg.payload, step.now);
    assert BringsNoNewer(net, c, i, net.nodes[i].engine.gateRevision);
    var next := Next(h, net, step);
    forall d <- next.inFlight
      ensures BringsNoNewer(next, d, i, next.nodes[i].engine.gateRevision)
    {
      assert BringsNoNewer(net, d, i, net.nodes[i].engine.gateRevision);
    }
  }

  lemma PublishKeepsOpen(h: Hash, net: Net, step: Step, i: nat)
    requires Inv(h, net) && Enabled(net, step) && Unclosable(net, i) && step.Publish?
    ensures Unclosable(Next(h, net, step), i)
  {
    var next := Next(h, net, step);
    forall c <- next.inFlight
      ensures BringsNoNewer(next, c, i, next.nodes[i].engine.gateRevision)
    {
      if c in net.inFlight {
        assert BringsNoNewer(net, c, i, net.nodes[i].engine.gateRevision);
      } else {
        assert c in step.copies && HoldsNoNewer(net.nodes[step.node].engine, net.nodes[i].engine.gateRevision);
      }
    }
  }

  lemma StepKeepsOpen(h: Hash, net: Net, step: Step, i: nat)
    requires Inv(h, net) && Enabled(net, step) && Unclosable(net, i) && !WritesGate(step, true)
    ensures Unclosable(Next(h, net, step), i)
  {
    match step
    case Deliver(_, _) => DeliverKeepsOpen(h, net, step, i);
    case Issue(_, _, _) => IssueKeepsOpen(h, net, step, i);
    case Publish(_, _, _) => PublishKeepsOpen(h, net, step, i);
    case Frame(_, _) =>
      forall c <- net.inFlight
        ensures BringsNoNewer(Next(h, net, step), c, i, net.nodes[i].engine.gateRevision)
      {
        assert BringsNoNewer(net, c, i, net.nodes[i].engine.gateRevision);
      }
  }

  /** A run in which no coordinator closes a gate. */
  ghost predicate Closeless(steps: seq<Step>) {
    forall s <- steps :: !WritesGate(s, true)
  }

  /** Over such a run no delivery and no replay closes that gate again. */
  lemma {:induction false} OpenGateStaysOpen(h: Hash, net: Net, steps: seq<Step>, i: nat)
    requires Inv(h, net) && Legal(h, net, steps) && Unclosable(net, i) && Closeless(steps)
    ensures Unclosable(Run(h, net, steps), i)
    decreases |steps|
  {
    hide Unclosable;
    if steps == [] {
    } else {
      StepKeepsOpen(h, net, steps[0], i);
      StepKeepsInv(h, net, steps[0]);
      OpenGateStaysOpen(h, Next(h, net, steps[0]), steps[1..], i);
    }
  }

  ghost predicate EndsOpen(h: Hash, net: Net, steps: seq<Step>, i: nat) {
    Legal(h, net, steps) ==>
      var end := Run(h, net, steps);
      i < |end.nodes| && !end.nodes[i].engine.gateClosed
  }

  /** Host i is open after every run in which no coordinator closes a gate. */
  ghost predicate StaysOpen(h: Hash, net: Net, i: nat) {
    forall steps: seq<Step> :: Closeless(steps) ==> EndsOpen(h, net, steps, i)
  }

  /* ---- What closes it otherwise ---- */

  /** For each node but the sender, one copy. */
  function OneCopyEach(n: nat, m: Msg): (copies: multiset<Copy>)
    ensures CopiesFor(n, m, copies)
  {
    if n == 0 then multiset{}
    else if n - 1 == m.sender then OneCopyEach(n - 1, m)
    else OneCopyEach(n - 1, m) + multiset{Copy(n - 1, m)}
  }

  /** One delivery of a newer closed gate closes host i. */
  lemma DeliveryCloses(h: Hash, net: Net, c: Copy, i: nat)
    requires Inv(h, net) && c in net.inFlight && c.to == i && i < |net.nodes|
    requires c.msg.payload.gateClosed && c.msg.payload.gateRevision > net.nodes[i].engine.gateRevision
    ensures Enabled(net, Deliver(c, 0)) && Next(h, net, Deliver(c, 0)).nodes[i].engine.gateClosed
  {
    assert MsgOk(net, c.msg);
  }

  lemma OneMore(h: Hash, net: Net, step: Step, steps: seq<Step>, i: nat)
    requires |net.nodes| == |net.changedHere| && Enabled(net, step) && !WritesGate(step, true) && Closeless(steps)
    requires Legal(h, Next(h, net, step), steps)
    requires !EndsOpen(h, Next(h, net, step), steps, i)
    ensures Closeless([step] + steps) && Legal(h, net, [step] + steps) && !EndsOpen(h, net, [step] + steps, i)
  {
    hide Next, Enabled;
    assert ([step] + steps)[1..] == steps;
  }

  /** What one step after another cannot keep open is not kept open. */
  lemma ClosedLater(h: Hash, net: Net, step: Step, i: nat)
    requires |net.nodes| == |net.changedHere| && Enabled(net, step) && !WritesGate(step, true)
    requires !StaysOpen(h, Next(h, net, step), i)
    ensures !StaysOpen(h, net, i)
  {
    hide Next, Enabled;
    var steps :| Closeless(steps) && !EndsOpen(h, Next(h, net, step), steps, i);
    OneMore(h, net, step, steps, i);
  }

  lemma ClosedNow(h: Hash, net: Net, i: nat)
    requires i < |net.nodes| && net.nodes[i].engine.gateClosed
    ensures !StaysOpen(h, net, i)
  {
    assert Closeless([]) && Legal(h, net, []) && !EndsOpen(h, net, [], i);
  }

  /** A copy in flight to host i. */
  lemma CopyCloses(h: Hash, net: Net, c: Copy, i: nat)
    requires Inv(h, net) && c in net.inFlight && c.to == i && i < |net.nodes|
    requires c.msg.payload.gateClosed && c.msg.payload.gateRevision > net.nodes[i].engine.gateRevision
    ensures !StaysOpen(h, net, i)
  {
    DeliveryCloses(h, net, c, i);
    hide Next, Enabled, StaysOpen;
    ClosedNow(h, Next(h, net, Deliver(c, 0)), i);
    ClosedLater(h, net, Deliver(c, 0), i);
  }

  /** A host that holds a newer closed gate and has it still to publish. */
  lemma PublisherCloses(h: Hash, net: Net, j: nat, i: nat)
    requires Inv(h, net) && i < |net.nodes| && j < |net.nodes| && i != j && net.nodes[j].OwesPublication()
    requires net.nodes[j].engine.gateClosed
    requires net.nodes[j].engine.gateRevision > net.nodes[i].engine.gateRevision
    ensures !StaysOpen(h, net, i)
  {
    var m := Msg(j, Captured(net.nodes[j].engine, 0));
    var publish := Publish(j, 0, OneCopyEach(|net.nodes|, m));
    PublishKeepsInv(h, net, publish);
    var next := Next(h, net, publish);
    assert Copy(i, m) in next.inFlight;
    hide StaysOpen, Inv;
    CopyCloses(h, next, Copy(i, m), i);
    ClosedLater(h, net, publish, i);
  }

  /** A host that holds a newer closed gate: a new ceiling makes it publish. */
  lemma HolderCloses(h: Hash, net: Net, j: nat, i: nat)
    requires Inv(h, net) && i < |net.nodes| && j < |net.nodes| && i != j
    requires net.nodes[j].engine.gateClosed
    requires net.nodes[j].engine.gateRevision > net.nodes[i].engine.gateRevision
    ensures !StaysOpen(h, net, i)
  {
    assert NodeOk(h, net, j);
    var issue := Issue(j, SetCeiling(0, 0), 0);
    IssueKeepsInv(h, net, issue);
    hide StaysOpen, Inv, NodeOk;
    PublisherCloses(h, Next(h, net, issue), j, i);
    ClosedLater(h, net, issue, i);
  }

  /** A newer closed gate in flight to a host that takes it. */
  lemma RelayCloses(h: Hash, net: Net, c: Copy, i: nat)
    requires Inv(h, net) && c in net.inFlight && i < |net.nodes| && c.to != i && c.msg.payload.gateClosed
    requires c.msg.payload.gateRevision > net.nodes[i].engine.gateRevision
    requires c.to < |net.nodes| && c.msg.payload.gateRevision > net.nodes[c.to].engine.gateRevision
    ensures !StaysOpen(h, net, i)
  {
    var deliver := Deliver(c, 0);
    assert MsgOk(net, c.msg) && NodeOk(h, net, c.to);
    AdoptByKey(h, net.nodes[c.to].engine, c.msg.payload, 0);
    DeliverKeepsInv(h, net, deliver);
    hide StaysOpen, Inv, NodeOk, MsgOk;
    HolderCloses(h, Next(h, net, deliver), c.to, i);
    ClosedLater(h, net, deliver, i);
  }

  /** When an open gate is safe from every run without a coordinator close: exactly if no closed gate that is newer is
      held, or in flight to a host that would take it. */
  lemma StaysOpenIff(h: Hash, net: Net, i: nat)
    requires Inv(h, net) && i < |net.nodes| && !net.nodes[i].engine.gateClosed
    ensures StaysOpen(h, net, i) <==> NothingNewer(net, i, net.nodes[i].engine.gateRevision)
  {
    var r := net.nodes[i].engine.gateRevision;
    if NothingNewer(net, i, r) {
      forall steps: seq<Step> | Closeless(steps) && Legal(h, net, steps)
        ensures EndsOpen(h, net, steps, i)
      {
        OpenGateStaysOpen(h, net, steps, i);
      }
    } else {
      hide StaysOpen;
      if c :| c in net.inFlight && !BringsNoNewer(net, c, i, r) {
        if c.to == i {
          CopyCloses(h, net, c, i);
        } else {
          RelayCloses(h, net, c, i);
        }
      } else {
        var j: nat :| j < |net.nodes| && j != i && !HoldsNoNewer(net.nodes[j].engine, r);
        HolderCloses(h, net, j, i);
      }
    }
  }

  /** When an open write holds: exactly if nothing newer than the revision it takes is held or on its way to a host
      that would take it. */
  lemma OpenWriteHoldsIff(h: Hash, net: Net, i: nat, given: nat, now: int)
    requires Inv(h, net) && i < |net.nodes|
    ensures StaysOpen(h, Next(h, net, Issue(i, SetWeatherGate(false, given), now)), i) <==>
            NothingNewer(net, i, NextGateRevision(net.nodes[i].engine.gateRevision, given))
  {
    var open := Issue(i, SetWeatherGate(false, given), now);
    IssueKeepsInv(h, net, open);
    var next, r := Next(h, net, open), NextGateRevision(net.nodes[i].engine.gateRevision, given);
    assert next.nodes[i].engine.gateRevision == r;
    StaysOpenIff(h, next, i);
    SameElsewhere(net, next, i, r);
    hide StaysOpen, Inv, NothingNewer;
  }

  lemma SameElsewhere(net: Net, next: Net, i: nat, r: nat)
    requires next.inFlight == net.inFlight && |next.nodes| == |net.nodes|
    requires forall j: nat | j < |net.nodes| && j != i :: next.nodes[j] == net.nodes[j]
    ensures NothingNewer(next, i, r) <==> NothingNewer(net, i, r)
  {
    assert forall c <- net.inFlight :: BringsNoNewer(next, c, i, r) <==> BringsNoNewer(net, c, i, r);
  }

  /** The largest gate revision held or in flight. */
  ghost predicate GatesUpTo(net: Net, top: nat) {
    && (forall j: nat | j < |net.nodes| :: net.nodes[j].engine.gateRevision <= top)
    && (forall c <- net.inFlight :: c.msg.payload.gateRevision <= top)
  }

  /** So one above everything held or in flight always does. */
  lemma FreshOpenWriteHolds(h: Hash, net: Net, i: nat, given: nat, now: int, top: nat)
    requires Inv(h, net) && i < |net.nodes| && GatesUpTo(net, top) && top < given <= MAX_GATE_REVISION
    ensures StaysOpen(h, Next(h, net, Issue(i, SetWeatherGate(false, given), now)), i)
  {
    hide StaysOpen, Inv;
    OpenWriteHoldsIff(h, net, i, given, now);
  }

  /** What a step makes of one host's revision. */
  lemma HostGateGrows(h: Hash, net: Net, step: Step, i: nat, top: nat)
    requires Inv(h, net) && Enabled(net, step) && GatesUpTo(net, top) && i < |net.nodes|
    ensures Next(h, net, step).nodes[i].engine.gateRevision <=
            if step.Issue? && step.cmd.SetWeatherGate? then Max(top + 1, step.cmd.revision) else top
  {
    match step
    case Deliver(c, now) =>
      assert MsgOk(net, c.msg) && NodeOk(h, net, c.to);
      AdoptByKey(h, net.nodes[c.to].engine, c.msg.payload, now);
    case Issue(k, cmd, now) =>
      assert NodeOk(h, net, k);
      WriteRaisesRevision(h, net.nodes[k].engine, cmd, now);
    case _ =>
  }

  /** How the largest revision grows: not at all, except that one write takes it to at most
      max(old + 1, given). */
  lemma GatesGrowByWritesOnly(h: Hash, net: Net, step: Step, top: nat)
    requires Inv(h, net) && Enabled(net, step) && GatesUpTo(net, top)
    ensures GatesUpTo(Next(h, net, step),
                      if step.Issue? && step.cmd.SetWeatherGate? then Max(top + 1, step.cmd.revision) else top)
  {
    hide Adopt, Guard, Commanded, NodeOk, MsgOk, OwnIsUnique, HeardOk;
    var next := Next(h, net, step);
    forall i: nat | i < |next.nodes|
      ensures next.nodes[i].engine.gateRevision <=
              if step.Issue? && step.cmd.SetWeatherGate? then Max(top + 1, step.cmd.revision) else top
    {
      HostGateGrows(h, net, step, i, top);
    }
    forall c <- next.inFlight
      ensures c.msg.payload.gateRevision <= top
    {
      assert c in net.inFlight || c in step.copies;
    }
  }

  /** Once nothing is owed and everything published was heard, every host has caught up with every closed gate: its
      revision is at least as high, and all closed gates have one revision. */
  lemma SettledGates(h: Hash, net: Net, i: nat, j: nat)
    requires Inv(h, net) && Convergence.AllHeard(net) && i < |net.nodes| && j < |net.nodes|
    requires net.nodes[j].engine.gateClosed
    ensures net.nodes[i].engine.gateRevision >= net.nodes[j].engine.gateRevision
    ensures net.nodes[i].engine.gateClosed ==> net.nodes[i].engine.gateRevision == net.nodes[j].engine.gateRevision
  {
    ClosedGateIsHeard(h, net, i, j);
    if net.nodes[i].engine.gateClosed {
      ClosedGateIsHeard(h, net, j, i);
    }
  }

  lemma ClosedGateIsHeard(h: Hash, net: Net, i: nat, j: nat)
    requires Inv(h, net) && Convergence.AllHeard(net) && i < |net.nodes| && j < |net.nodes|
    requires net.nodes[j].engine.gateClosed
    ensures net.nodes[i].engine.gateRevision >= net.nodes[j].engine.gateRevision
  {
    if i != j {
      var m := Convergence.Announcement(h, net, j);
      assert HeardOk(h, net, Copy(i, m));
    }
  }

  function RepeatedClose(h: Hash, e: Engine, given: nat, times: nat, now: int): Engine
    decreases times
  {
    if times == 0 then e
    else RepeatedClose(h, Commanded(h, e, SetWeatherGate(true, given), now), given, times - 1, now)
  }

  /** Each repetition adds one, from the first one's revision up to the cap. */
  lemma {:induction false} RepeatedCloseRevision(h: Hash, e: Engine, given: nat, times: nat, now: int)
    requires e.gateRevision <= MAX_GATE_REVISION
    ensures var closed := RepeatedClose(h, e, given, times, now);
            times > 0 ==>
              closed.gateClosed &&
              closed.gateRevision == Min(Max(e.gateRevision + 1, given) + times - 1, MAX_GATE_REVISION)
    decreases times
  {
    if times == 0 {
    } else {
      RepeatedCloseRevision(h, Commanded(h, e, SetWeatherGate(true, given), now), given, times - 1, now);
    }
  }

  /** So between two hosts alone: a close repeated at one climbs past the revision given, and past the one given there
      before, and it undoes an open at the other exactly if it has climbed past that open's revision. */
  lemma RepeatedCloseUndoesLaterOpen(h: Hash, a: Engine, b: Engine, given: nat, reopened: nat, times: nat, now: int)
    requires a.gateRevision <= MAX_GATE_REVISION && b.gateRevision <= MAX_GATE_REVISION && times > 0
    ensures var open := Commanded(h, a, SetWeatherGate(false, reopened), now);
            var closed := Captured(RepeatedClose(h, b, given, times, now), now);
            Adopt(h, open, closed, now).0.gateClosed <==>
            Min(Max(b.gateRevision + 1, given) + times - 1, MAX_GATE_REVISION) >
            Min(Max(a.gateRevision + 1, reopened), MAX_GATE_REVISION)
  {
    RepeatedCloseRevision(h, b, given, times, now);
  }
}
