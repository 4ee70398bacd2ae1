/** No rebroadcast storm: without new commands every run of publications and deliveries ends, and a
    fair run that loses nothing ends in agreement. */
module NoStorm {
  import opened Ordering
  import opened Brightness
  import opened MultiSync
  import opened Convergence

  /** Every key and gate revision that the states now held or in flight can still give rise to. */
  datatype Universe = Universe(times: set<int>, ids: set<Bytes>, hashes: set<Bytes>, gates: set<nat>)

  ghost predicate EngineWithin(h: Hash, u: Universe, e: Engine) {
    e.key.at in u.times && e.id in u.ids && h(e.content) in u.hashes && e.gateRevision in u.gates
  }

  ghost predicate PayloadWithin(h: Hash, u: Universe, p: Payload) {
    && p.changedAt in u.times
    && p.instanceId in u.ids
    && h(p.content) in u.hashes
    && p.gateRevision in u.gates
  }

  ghost predicate Within(h: Hash, u: Universe, net: Net) {
    && (forall i: nat | i < |net.nodes| :: EngineWithin(h, u, net.nodes[i].engine))
    && (forall c <- net.inFlight :: PayloadWithin(h, u, c.msg.payload))
  }

  ghost function UniverseOf(h: Hash, net: Net): Universe {
    var nodes := set i | 0 <= i < |net.nodes| :: net.nodes[i].engine;
    var sent := set c | c in net.inFlight :: c.msg.payload;
    Universe((set e <- nodes :: e.key.at) + (set p <- sent :: p.changedAt),
             (set e <- nodes :: e.id) + (set p <- sent :: p.instanceId),
             (set e <- nodes :: h(e.content)) + (set p <- sent :: h(p.content)),
             (set e <- nodes :: e.gateRevision) + (set p <- sent :: p.gateRevision))
  }

  lemma UniverseHoldsAll(h: Hash, net: Net)
    ensures Within(h, UniverseOf(h, net), net)
  {
    var nodes := set i | 0 <= i < |net.nodes| :: net.nodes[i].engine;
    forall i: nat | i < |net.nodes|
      ensures EngineWithin(h, UniverseOf(h, net), net.nodes[i].engine)
    {
      assert net.nodes[i].engine in nodes;
    }
    var sent := set c | c in net.inFlight :: c.msg.payload;
    forall c <- net.inFlight
      ensures PayloadWithin(h, UniverseOf(h, net), c.msg.payload)
    {
      assert c.msg.payload in sent;
    }
  }

  ghost function AllKeys(u: Universe): set<Key> {
    set t <- u.times, i <- u.ids, x <- u.hashes :: Key(t, i, x)
  }

  ghost function KeysAbove(u: Universe, k: Key): set<Key> {
    set x | x in AllKeys(u) && k.Less(x)
  }

  ghost function GatesAbove(u: Universe, g: nat): set<nat> {
    set x | x in u.gates && g < x
  }

  /** How many adoptions a node has left. */
  ghost function Room(u: Universe, e: Engine): nat {
    |KeysAbove(u, e.key)| + |GatesAbove(u, e.gateRevision)|
  }

  ghost function TotalRoom(u: Universe, nodes: seq<Node>): nat {
    if nodes == [] then 0 else TotalRoom(u, nodes[..|nodes| - 1]) + Room(u, nodes[|nodes| - 1].engine)
  }

  ghost function Owed(nodes: seq<Node>): nat {
    if nodes == [] then 0
    else Owed(nodes[..|nodes| - 1]) + if nodes[|nodes| - 1].OwesPublication() then 1 else 0
  }

  datatype Measure = Measure(room: nat, owed: nat, flying: nat) {
    predicate Below(m: Measure) {
      room < m.room || (room == m.room && (owed < m.owed || (owed == m.owed && flying < m.flying)))
    }
  }

  ghost function MeasureOf(u: Universe, net: Net): Measure {
    Measure(TotalRoom(u, net.nodes), Owed(net.nodes), |net.inFlight|)
  }

  lemma {:induction false} UpdateTotals(u: Universe, nodes: seq<Node>, i: nat, n: Node)
    requires i < |nodes|
    ensures TotalRoom(u, nodes[i := n]) == TotalRoom(u, nodes) - Room(u, nodes[i].engine) + Room(u, n.engine)
    ensures Owed(nodes[i := n]) == Owed(nodes) - (if nodes[i].OwesPublication() then 1 else 0)
                                   + (if n.OwesPublication() then 1 else 0)
  {
    var last := |nodes| - 1;
    if i == last {
      assert nodes[i := n][..last] == nodes[..last];
    } else {
      assert nodes[i := n][..last] == nodes[..last][i := n];
      UpdateTotals(u, nodes[..last], i, n);
    }
  }

  lemma SmallerSet<T>(a: set<T>, b: set<T>, x: T)
    requires a <= b && x in b && x !in a
    ensures |a| < |b|
  {
    assert a <= b - {x};
    SubsetSize(a, b - {x});
  }

  lemma {:induction false} SubsetSize<T>(a: set<T>, b: set<T>)
    requires a <= b
    ensures |a| <= |b|
    decreases |a|
  {
    if x :| x in a {
      SubsetSize(a - {x}, b - {x});
    }
  }

  lemma RoomShrinks(u: Universe, a: Engine, b: Engine)
    requires a.key.Leq(b.key) && a.gateRevision <= b.gateRevision
    requires b.key in AllKeys(u) || b.key == a.key
    requires b.gateRevision in u.gates
    ensures Room(u, b) <= Room(u, a)
    ensures b.key != a.key || b.gateRevision != a.gateRevision ==> Room(u, b) < Room(u, a)
  {
    KeyTrichotomy(b.key, b.key);
    forall x | x in KeysAbove(u, b.key)
      ensures x in KeysAbove(u, a.key)
    {
      if a.key != b.key {
        KeyLessTransitive(a.key, b.key, x);
      }
    }
    SubsetSize(KeysAbove(u, b.key), KeysAbove(u, a.key));
    SubsetSize(GatesAbove(u, b.gateRevision), GatesAbove(u, a.gateRevision));
    if b.key != a.key {
      SmallerSet(KeysAbove(u, b.key), KeysAbove(u, a.key), b.key);
    }
    if b.gateRevision != a.gateRevision {
      SmallerSet(GatesAbove(u, b.gateRevision), GatesAbove(u, a.gateRevision), b.gateRevision);
    }
  }

  /** An adoption, and only an adoption, changes what the receiver holds: its key or its gate rises. */
  lemma DeliveryRaisesOrKeeps(h: Hash, u: Universe, e: Engine, p: Payload, now: int)
    requires EngineWithin(h, u, e) && PayloadWithin(h, u, p)
    requires p.content.InRange() && e.gateRevision <= MAX_GATE_REVISION && p.gateRevision <= MAX_GATE_REVISION
    ensures var r := Adopt(h, e, p, now).0;
            && EngineWithin(h, u, r)
            && Room(u, r) <= Room(u, e)
            && (r != e ==> Room(u, r) < Room(u, e))
  {
    AdoptByKey(h, e, p, now);
    var r := Adopt(h, e, p, now).0;
    KeyTrichotomy(e.key, PublishedKey(h, p));
    RoomShrinks(u, e, r);
  }

  lemma PublishDescends(h: Hash, u: Universe, net: Net, step: Step)
    requires Inv(h, net) && Within(h, u, net) && step.Publish? && Enabled(net, step)
    ensures Within(h, u, Next(h, net, step))
    ensures MeasureOf(u, Next(h, net, step)).Below(MeasureOf(u, net))
  {
    var n := net.nodes[step.node];
    var next := Next(h, net, step);
    UpdateTotals(u, net.nodes, step.node, next.nodes[step.node]);
    forall c <- next.inFlight
      ensures PayloadWithin(h, u, c.msg.payload)
    {
      assert c in net.inFlight || c in step.copies;
    }
  }

  lemma DeliverDescends(h: Hash, u: Universe, net: Net, step: Step)
    requires Inv(h, net) && Within(h, u, net) && step.Deliver? && Enabled(net, step)
    ensures Within(h, u, Next(h, net, step))
    ensures MeasureOf(u, Next(h, net, step)).Below(MeasureOf(u, net))
  {
    var c := step.copy;
    var n := net.nodes[c.to];
    var next := Next(h, net, step);
    assert MsgOk(net, c.msg) && NodeOk(h, net, c.to);
    DeliveryRaisesOrKeeps(h, u, n.engine, c.msg.payload, step.now);
    UpdateTotals(u, net.nodes, c.to, next.nodes[c.to]);
    if next.nodes[c.to].engine == n.engine {
      assert next.nodes[c.to] == n;
    }
  }

  lemma FrameKeepsMeasure(h: Hash, u: Universe, net: Net, step: Step)
    requires Inv(h, net) && Within(h, u, net) && step.Frame? && Enabled(net, step)
    ensures Within(h, u, Next(h, net, step))
    ensures MeasureOf(u, Next(h, net, step)) == MeasureOf(u, net)
  {
    UpdateTotals(u, net.nodes, step.node, Next(h, net, step).nodes[step.node]);
  }

  /** An endless run in which no command is issued any more. */
  ghost predicate QuietRun(h: Hash, net: nat -> Net, step: nat -> Step) {
    && Inv(h, net(0))
    && forall k: nat ::
         && |net(k).nodes| == |net(k).changedHere|
         && Enabled(net(k), step(k))
         && !step(k).Issue?
         && net(k + 1) == Next(h, net(k), step(k))
  }

  lemma {:induction false} QuietRunKeepsInv(h: Hash, net: nat -> Net, step: nat -> Step, k: nat)
    requires QuietRun(h, net, step)
    ensures Inv(h, net(k))
    decreases k
  {
    if k == 0 {
    } else {
      QuietRunKeepsInv(h, net, step, k - 1);
      StepKeepsInv(h, net(k - 1), step(k - 1));
      assert net(k - 1 + 1) == Next(h, net(k - 1), step(k - 1));
    }
  }

  lemma QuietStep(h: Hash, u: Universe, net: nat -> Net, step: nat -> Step, k: nat)
    requires QuietRun(h, net, step) && Within(h, u, net(k))
    ensures Within(h, u, net(k + 1))
    ensures step(k).Frame? ==> MeasureOf(u, net(k + 1)) == MeasureOf(u, net(k))
    ensures !step(k).Frame? ==> MeasureOf(u, net(k + 1)).Below(MeasureOf(u, net(k)))
  {
    QuietRunKeepsInv(h, net, step, k);
    match step(k)
    case Frame(_, _) => FrameKeepsMeasure(h, u, net(k), step(k));
    case Publish(_, _, _) => PublishDescends(h, u, net(k), step(k));
    case Deliver(_, _) => DeliverDescends(h, u, net(k), step(k));
    case Issue(_, _, _) => assert false;
  }

  lemma {:induction false} QuietSteps(h: Hash, u: Universe, net: nat -> Net, step: nat -> Step, i: nat, j: nat)
    requires QuietRun(h, net, step) && Within(h, u, net(i)) && i <= j
    ensures Within(h, u, net(j))
    ensures MeasureOf(u, net(j)) == MeasureOf(u, net(i)) || MeasureOf(u, net(j)).Below(MeasureOf(u, net(i)))
    decreases j - i
  {
    if i < j {
      QuietStep(h, u, net, step, i);
      QuietSteps(h, u, net, step, i + 1, j);
    }
  }

  ghost predicate OnlyFramesFrom(step: nat -> Step, last: nat) {
    forall k: nat | k >= last :: step(k).Frame?
  }

  /** From some point on only frames are output: publications and deliveries have come to an end. */
  lemma {:induction false} TrafficEndsAfter(h: Hash, u: Universe, net: nat -> Net, step: nat -> Step, from: nat)
      returns (last: nat)
    requires QuietRun(h, net, step) && Within(h, u, net(from))
    ensures from <= last && OnlyFramesFrom(step, last)
    decreases MeasureOf(u, net(from)).room, MeasureOf(u, net(from)).owed, MeasureOf(u, net(from)).flying
  {
    if k: nat :| k >= from && !step(k).Frame? {
      QuietSteps(h, u, net, step, from, k);
      QuietStep(h, u, net, step, k);
      last := TrafficEndsAfter(h, u, net, step, k + 1);
    } else {
      last := from;
    }
  }

  /** The main termination result, from every state a run can reach. */
  lemma TrafficEnds(h: Hash, net: nat -> Net, step: nat -> Step)
    requires QuietRun(h, net, step)
    ensures exists last: nat :: OnlyFramesFrom(step, last)
  {
    UniverseHoldsAll(h, net(0));
    var last := TrafficEndsAfter(h, UniverseOf(h, net(0)), net, step, 0);
  }

  /** A payload heard once changes nothing when it arrives again, however much later. */
  lemma ReplayChangesNothing(h: Hash, net: Net, c: Copy, now: int)
    requires Inv(h, net) && c in net.heard
    ensures Adopt(h, net.nodes[c.to].engine, c.msg.payload, now).0 == net.nodes[c.to].engine
  {
    assert HeardOk(h, net, c) && MsgOk(net, c.msg) && NodeOk(h, net, c.to);
    KeyTrichotomy(PublishedKey(h, c.msg.payload), net.nodes[c.to].engine.key);
    AdoptByKey(h, net.nodes[c.to].engine, c.msg.payload, now);
  }

  /* ---- Every published state is heard or still on its way ---- */

  ghost predicate Accounted(net: Net) {
    forall m <- net.published, j: nat | j < |net.nodes| && j != m.sender ::
      Copy(j, m) in net.heard || Copy(j, m) in net.inFlight
  }

  /** A delivery the receiver's guards let through. */
  predicate PassesGuards(step: Step) {
    step.Deliver? ==> Guard(step.copy.msg.payload, step.now) == Adopted
  }

  lemma StepKeepsAccounted(h: Hash, net: Net, step: Step)
    requires Inv(h, net) && Accounted(net) && Enabled(net, step) && PassesGuards(step)
    ensures Accounted(Next(h, net, step))
  {
    hide NodeOk, MsgOk, Commanded, Adopt, Captured;
    var next := Next(h, net, step);
    forall m <- next.published, j: nat | j < |next.nodes| && j != m.sender
      ensures Copy(j, m) in next.heard || Copy(j, m) in next.inFlight
    {
      if m in net.published {
        assert Copy(j, m) in net.heard || Copy(j, m) in net.inFlight;
      } else {
        assert Copy(j, m) in step.copies;
      }
    }
  }

  lemma StartAccounted(ids: seq<Bytes>)
    ensures Accounted(StartNet(ids))
  {
  }

  lemma {:induction false} LegalKeepsAccounted(h: Hash, net: Net, steps: seq<Step>)
    requires Inv(h, net) && Accounted(net) && Legal(h, net, steps) && forall s <- steps :: PassesGuards(s)
    ensures Accounted(Run(h, net, steps))
    decreases |steps|
  {
    hide Inv, Accounted, Enabled, Next, PassesGuards;
    if steps == [] {
    } else {
      assert steps[0] in steps && forall s <- steps[1..] :: s in steps;
      StepKeepsAccounted(h, net, steps[0]);
      StepKeepsInv(h, net, steps[0]);
      LegalKeepsAccounted(h, Next(h, net, steps[0]), steps[1..]);
    }
  }

  /** Something is left to do. */
  ghost predicate Pending(net: Net) {
    |net.inFlight| > 0 || exists i: nat :: i < |net.nodes| && net.nodes[i].OwesPublication()
  }

  /** Nothing is put off for ever, and nothing is lost to a guard. */
  ghost predicate FairRun(net: nat -> Net, step: nat -> Step) {
    && (forall k: nat :: PassesGuards(step(k)))
    && (forall k: nat :: Pending(net(k)) ==> exists later: nat :: later >= k && !step(later).Frame?)
  }

  lemma {:induction false} RunKeepsAccounted(h: Hash, net: nat -> Net, step: nat -> Step, k: nat)
    requires QuietRun(h, net, step) && FairRun(net, step) && Accounted(net(0))
    ensures Accounted(net(k))
    decreases k
  {
    if k == 0 {
    } else {
      RunKeepsAccounted(h, net, step, k - 1);
      QuietRunKeepsInv(h, net, step, k - 1);
      StepKeepsAccounted(h, net(k - 1), step(k - 1));
      assert net(k - 1 + 1) == Next(h, net(k - 1), step(k - 1));
    }
  }

  ghost predicate Agreement(net: Net) {
    forall i: nat, j: nat | i < |net.nodes| && j < |net.nodes| ::
      net.nodes[i].engine.content == net.nodes[j].engine.content
  }

  ghost predicate AgreementFrom(net: nat -> Net, last: nat) {
    forall k: nat | k >= last :: Agreement(net(k))
  }

  /** Eventual agreement: after the last command a fair run comes to a point from which all nodes hold
      identical fades for ever. */
  lemma EventuallyAgree(h: Hash, net: nat -> Net, step: nat -> Step)
    requires QuietRun(h, net, step) && FairRun(net, step) && Accounted(net(0))
    requires forall k: nat :: NoCollision(h, net(k))
    ensures exists last: nat :: AgreementFrom(net, last)
  {
    UniverseHoldsAll(h, net(0));
    var last := TrafficEndsAfter(h, UniverseOf(h, net(0)), net, step, 0);
    forall k: nat | k >= last
      ensures Agreement(net(k))
    {
      assert !Pending(net(k));
      QuietRunKeepsInv(h, net, step, k);
      RunKeepsAccounted(h, net, step, k);
      assert AllHeard(net(k));
      forall i: nat, j: nat | i < |net(k).nodes| && j < |net(k).nodes|
        ensures net(k).nodes[i].engine.content == net(k).nodes[j].engine.content
      {
        SettledNodesAgree(h, net(k), i, j);
      }
    }
    assert AgreementFrom(net, last);
  }
}
