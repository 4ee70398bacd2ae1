/** The MultiSync group as a state machine over engine states: local commands, output frames,
    publications, and deliveries in any order and any number (native/tools/convergence_model.h,
    native/src/runtime.cpp). The run's history is kept so that it can be reasoned about. */
module MultiSync {
  import opened Ordering
  import opened Fading
  import opened Brightness

  /** One host: its engine, and what publishBrightnessIfChanged remembers. */
  datatype Node = Node(engine: Engine, publishedOnce: bool, publishedRevision: nat) {
    predicate OwesPublication() {
      !publishedOnce || engine.revision != publishedRevision
    }
  }

  datatype Msg = Msg(sender: nat, payload: Payload)

  /** A message on its way to, or heard by, one node. */
  datatype Copy = Copy(to: nat, msg: Msg)

  /** published, heard and changedHere are history: every state ever sent, every delivery that passed
      the guards, and whether a node's present key comes from a change made at that node. */
  datatype Net = Net(
    nodes: seq<Node>,
    inFlight: multiset<Copy>,
    published: set<Msg>,
    heard: set<Copy>,
    changedHere: seq<bool>)

  datatype Step =
    | Issue(node: nat, cmd: Command, now: int)
    | Frame(node: nat, now: int)
    | Publish(node: nat, now: int, copies: multiset<Copy>)
    | Deliver(copy: Copy, now: int)

  function StartNet(ids: seq<Bytes>): Net {
    Net(seq(|ids|, i requires 0 <= i < |ids| => Node(Fresh(ids[i]), false, 0)), multiset{}, {}, {},
        seq(|ids|, _ => true))
  }

  /** One message for each other node, and any number of duplicates. */
  ghost predicate CopiesFor(n: nat, m: Msg, copies: multiset<Copy>) {
    && (forall c <- copies :: c.msg == m && c.to < n && c.to != m.sender)
    && (forall j: nat | j < n && j != m.sender :: Copy(j, m) in copies)
  }

  ghost predicate Enabled(net: Net, step: Step) {
    match step
    case Issue(i, _, _) => i < |net.nodes|
    case Frame(i, _) => i < |net.nodes|
    case Publish(i, now, copies) =>
      && i < |net.nodes|
      && net.nodes[i].OwesPublication()
      && CopiesFor(|net.nodes|, Msg(i, Captured(net.nodes[i].engine, now)), copies)
    case Deliver(c, _) => c in net.inFlight && c.to < |net.nodes| == |net.changedHere|
  }

  function Next(h: Hash, net: Net, step: Step): Net
    requires |net.nodes| == |net.changedHere|
    requires Enabled(net, step)
  {
    match step
    case Issue(i, cmd, now) =>
      var n := net.nodes[i];
      net.(nodes := net.nodes[i := n.(engine := Commanded(h, n.engine, cmd, now))],
           changedHere := if Accepts(cmd, now) then net.changedHere[i := true] else net.changedHere)
    case Frame(i, now) =>
      var n := net.nodes[i];
      net.(nodes := net.nodes[i := n.(engine := FrameApplied(n.engine, now))])
    case Publish(i, now, copies) =>
      var n := net.nodes[i];
      net.(nodes := net.nodes[i := n.(publishedOnce := true, publishedRevision := n.engine.revision)],
           inFlight := net.inFlight + copies,
           published := net.published + {Msg(i, Captured(n.engine, now))})
    case Deliver(c, now) =>
      var n := net.nodes[c.to];
      var r := Adopt(h, n.engine, c.msg.payload, now);
      net.(nodes := net.nodes[c.to := n.(engine := r.0)],
           inFlight := net.inFlight - multiset{c},
           heard := if Guard(c.msg.payload, now) == Adopted then net.heard + {c} else net.heard,
           changedHere := if r.1 == Adopted then net.changedHere[c.to := false] else net.changedHere)
  }

  /** Whether each step of a run can be taken where it stands. */
  ghost predicate Legal(h: Hash, net: Net, steps: seq<Step>)
    decreases |steps|
  {
    steps == [] ||
    (&& |net.nodes| == |net.changedHere|
     && Enabled(net, steps[0])
     && Legal(h, Next(h, net, steps[0]), steps[1..]))
  }

  ghost function Run(h: Hash, net: Net, steps: seq<Step>): Net
    requires Legal(h, net, steps)
    decreases |steps|
  {
    if steps == [] then net else Run(h, Next(h, net, steps[0]), steps[1..])
  }

  /* ---- What every step keeps ---- */

  ghost predicate MsgOk(net: Net, m: Msg) {
    && m.sender < |net.nodes|
    && m.payload.schemaVersion == SCHEMA_VERSION
    && m.payload.instanceId == net.nodes[m.sender].engine.id
    && m.payload.content.InRange()
    && 0 <= m.payload.changedAt <= net.nodes[m.sender].engine.key.at
    && (m.payload.changedAt == 0 ==> m.payload.content == FULL_CONTENT)
    && m.payload.gateRevision <= MAX_GATE_REVISION
  }

  /** The node's present key and content are exactly those some other node published. */
  ghost predicate TakenFrom(h: Hash, net: Net, i: nat, m: Msg)
    requires i < |net.nodes|
  {
    && m.sender != i
    && PublishedKey(h, m.payload) == net.nodes[i].engine.key
    && m.payload.content == net.nodes[i].engine.content
  }

  /** A message carrying the node's present time, content and gate, sent by the node itself. */
  ghost predicate AnnouncedBy(net: Net, i: nat, m: Msg)
    requires i < |net.nodes|
  {
    && m.sender == i
    && m.payload.changedAt == net.nodes[i].engine.key.at
    && m.payload.content == net.nodes[i].engine.content
    && m.payload.gateClosed == net.nodes[i].engine.gateClosed
    && m.payload.gateRevision == net.nodes[i].engine.gateRevision
  }

  ghost predicate NodeOk(h: Hash, net: Net, i: nat)
    requires i < |net.nodes| == |net.changedHere|
  {
    var e := net.nodes[i].engine;
    && e.content.InRange()
    && 0 <= e.key.at
    && net.nodes[i].publishedRevision <= e.revision
    && e.gateRevision <= MAX_GATE_REVISION
    && (e.key.at == 0 ==> e.content == FULL_CONTENT)
    && (e.key.at > 0 ==> e.key.hash == h(e.content))
    && (net.changedHere[i] ==> e.key.id == e.id)
    && (e.key.at > 0 && !net.changedHere[i] ==> exists m <- net.published :: TakenFrom(h, net, i, m))
    && (!net.nodes[i].OwesPublication() ==> exists m <- net.published :: AnnouncedBy(net, i, m))
  }

  /** While the key is the node's own, all it has published at that time is its present content. */
  ghost predicate OwnIsUnique(net: Net, m: Msg)
    requires m.sender < |net.nodes| == |net.changedHere|
  {
    net.changedHere[m.sender] && m.payload.changedAt == net.nodes[m.sender].engine.key.at ==>
      m.payload.content == net.nodes[m.sender].engine.content
  }

  /** What a node has heard it holds at least as much of, in the key and in a closed gate's revision. */
  ghost predicate HeardOk(h: Hash, net: Net, c: Copy) {
    && c.msg in net.published
    && c.to < |net.nodes|
    && PublishedKey(h, c.msg.payload).Leq(net.nodes[c.to].engine.key)
    && (c.msg.payload.gateClosed ==> c.msg.payload.gateRevision <= net.nodes[c.to].engine.gateRevision)
  }

  ghost predicate Inv(h: Hash, net: Net) {
    && |net.nodes| == |net.changedHere|
    && (forall m <- net.published :: MsgOk(net, m) && OwnIsUnique(net, m))
    && (forall i: nat | i < |net.nodes| :: NodeOk(h, net, i))
    && (forall c <- net.heard :: HeardOk(h, net, c))
    && (forall c <- net.inFlight :: c.msg in net.published && c.to < |net.nodes| && c.to != c.msg.sender)
  }

  lemma StartKeepsInv(h: Hash, ids: seq<Bytes>)
    ensures Inv(h, StartNet(ids))
  {
  }

  lemma NewContentInRange(c: Content, cmd: Command, now: int)
    requires c.InRange() && Accepts(cmd, now)
    ensures NewContent(c, cmd, now).InRange()
  {
    ValueBetweenEnds(c.ceiling, now);
    ValueBetweenEnds(c.gain, now);
  }

  /** Keys never fall, ids never change, and a changed key always shows in the revision. */
  lemma NodeOnlyRises(h: Hash, net: Net, step: Step, i: nat)
    requires |net.nodes| == |net.changedHere| && Enabled(net, step) && i < |net.nodes|
    requires net.nodes[i].engine.key.at >= 0
    ensures var a, b := net.nodes[i].engine, Next(h, net, step).nodes[i].engine;
            && |Next(h, net, step).nodes| == |net.nodes|
            && b.id == a.id
            && a.key.Leq(b.key)
            && a.revision <= b.revision
            && (a.revision == b.revision ==> a.key == b.key && a.content == b.content)
            && (a.gateRevision <= MAX_GATE_REVISION ==> a.gateRevision <= b.gateRevision <= MAX_GATE_REVISION)
  {
  }

  lemma IssueKeepsInv(h: Hash, net: Net, step: Step)
    requires Inv(h, net) && step.Issue? && Enabled(net, step)
    ensures Inv(h, Next(h, net, step))
  {
    var next := Next(h, net, step);
    var i := step.node;
    var a, b := net.nodes[i].engine, next.nodes[i].engine;
    assert NodeOk(h, net, i);
    if Accepts(step.cmd, step.now) {
      NewContentInRange(a.content, step.cmd, step.now);
      OthersKeepNodeOk(h, net, next, i);
      HeardKept(h, net, next, i);
      MessagesKept(net, next, i);
    } else {
      assert next.nodes == net.nodes;
      assert next == net;
    }
  }

  /** A step that changes only node i and publishes nothing new away leaves every other node as it was. */
  lemma OthersKeepNodeOk(h: Hash, net: Net, next: Net, i: nat)
    requires Inv(h, net) && i < |net.nodes| == |next.nodes| == |next.changedHere|
    requires net.published <= next.published
    requires forall j: nat | j < |net.nodes| && j != i ::
               next.nodes[j] == net.nodes[j] && next.changedHere[j] == net.changedHere[j]
    ensures forall j: nat | j < |net.nodes| && j != i :: NodeOk(h, next, j)
  {
    forall j: nat | j < |net.nodes| && j != i
      ensures NodeOk(h, next, j)
    {
      assert NodeOk(h, net, j);
      if net.nodes[j].engine.key.at > 0 && !net.changedHere[j] {
        var m :| m in net.published && TakenFrom(h, net, j, m);
        assert m in next.published && TakenFrom(h, next, j, m);
      }
      if !net.nodes[j].OwesPublication() {
        var m :| m in net.published && AnnouncedBy(net, j, m);
        assert m in next.published && AnnouncedBy(next, j, m);
      }
    }
  }

  lemma HeardKept(h: Hash, net: Net, next: Net, i: nat)
    requires Inv(h, net) && i < |net.nodes| == |next.nodes|
    requires net.published <= next.published
    requires forall j: nat | j < |net.nodes| && j != i :: next.nodes[j] == net.nodes[j]
    requires net.nodes[i].engine.key.Leq(next.nodes[i].engine.key)
    requires net.nodes[i].engine.gateRevision <= next.nodes[i].engine.gateRevision
    ensures forall c <- net.heard :: HeardOk(h, next, c)
  {
    forall c <- net.heard
      ensures HeardOk(h, next, c)
    {
      assert HeardOk(h, net, c);
      KeyLeqTransitive(PublishedKey(h, c.msg.payload), net.nodes[c.to].engine.key, next.nodes[c.to].engine.key);
    }
  }

  lemma FrameKeepsInv(h: Hash, net: Net, step: Step)
    requires Inv(h, net) && step.Frame? && Enabled(net, step)
    ensures Inv(h, Next(h, net, step))
  {
    var next := Next(h, net, step);
    var i := step.node;
    OthersKeepNodeOk(h, net, next, i);
    HeardKept(h, net, next, i);
    assert NodeOk(h, net, i);
    if net.nodes[i].engine.key.at > 0 && !net.changedHere[i] {
      var m :| m in net.published && TakenFrom(h, net, i, m);
      assert TakenFrom(h, next, i, m);
    }
    if !net.nodes[i].OwesPublication() {
      var m :| m in net.published && AnnouncedBy(net, i, m);
      assert AnnouncedBy(next, i, m);
    }
    assert NodeOk(h, next, i);
    MessagesKept(net, next, i);
  }

  /** Messages stay in order while the nodes' ids stay and no key falls or turns into a node's own. */
  lemma MessagesKept(net: Net, next: Net, i: nat)
    requires i < |net.nodes| == |net.changedHere| == |next.nodes| == |next.changedHere|
    requires forall m <- net.published :: MsgOk(net, m) && OwnIsUnique(net, m)
    requires forall j: nat | j < |net.nodes| && j != i ::
               next.nodes[j] == net.nodes[j] && next.changedHere[j] == net.changedHere[j]
    requires next.nodes[i].engine.id == net.nodes[i].engine.id
    requires net.nodes[i].engine.key.at <= next.nodes[i].engine.key.at
    requires next.changedHere[i] ==>
               || net.nodes[i].engine.key.at < next.nodes[i].engine.key.at
               || (&& net.changedHere[i]
                   && next.nodes[i].engine.key.at == net.nodes[i].engine.key.at
                   && next.nodes[i].engine.content == net.nodes[i].engine.content)
    ensures forall m <- net.published :: MsgOk(next, m) && OwnIsUnique(next, m)
  {
    forall m <- net.published
      ensures MsgOk(next, m) && OwnIsUnique(next, m)
    {
      assert MsgOk(net, m) && OwnIsUnique(net, m);
    }
  }

  lemma PublishKeepsInv(h: Hash, net: Net, step: Step)
    requires Inv(h, net) && step.Publish? && Enabled(net, step)
    ensures Inv(h, Next(h, net, step))
  {
    var next := Next(h, net, step);
    var i := step.node;
    OthersKeepNodeOk(h, net, next, i);
    HeardKept(h, net, next, i);
    assert NodeOk(h, net, i);
    if net.nodes[i].engine.key.at > 0 && !net.changedHere[i] {
      var m :| m in net.published && TakenFrom(h, net, i, m);
      assert m in next.published && TakenFrom(h, next, i, m);
    }
    var sent := Msg(i, Captured(net.nodes[i].engine, step.now));
    assert sent in next.published && AnnouncedBy(next, i, sent);
    MessagesKept(net, next, i);
    assert MsgOk(next, sent) && OwnIsUnique(next, sent);
  }

  lemma ClampInRange(c: Content)
    requires c.InRange()
    ensures ClampContent(c) == c
  {
  }

  /** Adoption in terms of the keys alone. A payload that passes the guards leaves the receiver's key at
      or above the published one, and is adopted exactly when that raises it. */
  lemma AdoptByKey(h: Hash, e: Engine, p: Payload, now: int)
    requires p.content.InRange()
    ensures var r := Adopt(h, e, p, now);
            && r.0.id == e.id
            && (r.1 == Adopted <==> Guard(p, now) == Adopted && e.key.Less(PublishedKey(h, p)))
            && (r.1 == Adopted ==>
                  r.0.content == p.content && r.0.key == PublishedKey(h, p) && r.0.revision > e.revision)
            && (r.1 != Adopted ==> r.0.content == e.content && r.0.key == e.key && r.0.revision >= e.revision)
            && (Guard(p, now) == Adopted ==> PublishedKey(h, p).Leq(r.0.key))
            && (e.gateRevision <= MAX_GATE_REVISION && p.gateRevision <= MAX_GATE_REVISION ==>
                  && e.gateRevision <= r.0.gateRevision <= MAX_GATE_REVISION
                  && (r.0.gateRevision == e.gateRevision || r.0.gateRevision == p.gateRevision)
                  && (Guard(p, now) == Adopted && p.gateClosed ==> p.gateRevision <= r.0.gateRevision))
            && (r.0.revision == e.revision ==> r.0 == e)
  {
    ClampInRange(p.content);
    KeyTrichotomy(e.key, PublishedKey(h, p));
  }

  lemma DeliverNodeOk(h: Hash, net: Net, step: Step)
    requires Inv(h, net) && step.Deliver? && Enabled(net, step)
    ensures NodeOk(h, Next(h, net, step), step.copy.to)
  {
    var next := Next(h, net, step);
    hide Adopt, Guard, Captured, Commanded, FrameApplied, CopiesFor;
    var i, m := step.copy.to, step.copy.msg;
    assert MsgOk(net, m) && NodeOk(h, net, i);
    AdoptByKey(h, net.nodes[i].engine, m.payload, step.now);
    if Adopt(h, net.nodes[i].engine, m.payload, step.now).1 == Adopted {
      assert TakenFrom(h, next, i, m);
    } else {
      if net.nodes[i].engine.key.at > 0 && !net.changedHere[i] {
        var from :| from in net.published && TakenFrom(h, net, i, from);
        assert TakenFrom(h, next, i, from);
      }
      if !next.nodes[i].OwesPublication() {
        var from :| from in net.published && AnnouncedBy(net, i, from);
        assert AnnouncedBy(next, i, from);
      }
    }
  }

  /** What a delivery does to its receiver's place in the network. */
  lemma DeliverTouches(h: Hash, net: Net, step: Step)
    requires Inv(h, net) && step.Deliver? && Enabled(net, step)
    ensures var next, i := Next(h, net, step), step.copy.to;
            && net.nodes[i].engine.id == next.nodes[i].engine.id
            && net.nodes[i].engine.key.Leq(next.nodes[i].engine.key)
            && net.nodes[i].engine.key.at <= next.nodes[i].engine.key.at
            && net.nodes[i].engine.gateRevision <= next.nodes[i].engine.gateRevision
            && (next.changedHere[i] ==> net.changedHere[i] && next.nodes[i].engine.key.at == net.nodes[i].engine.key.at
                                        && next.nodes[i].engine.content == net.nodes[i].engine.content)
            && (step.copy in next.heard && step.copy !in net.heard ==> HeardOk(h, next, step.copy))
  {
    hide Adopt, Guard;
    var i, m := step.copy.to, step.copy.msg;
    assert MsgOk(net, m) && NodeOk(h, net, i);
    AdoptByKey(h, net.nodes[i].engine, m.payload, step.now);
  }

  /** A delivery changes one node, takes its copy out of flight, and may add it to what was heard. */
  lemma DeliverFrame(h: Hash, net: Net, step: Step)
    requires Inv(h, net) && step.Deliver? && Enabled(net, step)
    ensures var next, i := Next(h, net, step), step.copy.to;
            && |next.nodes| == |next.changedHere| == |net.nodes|
            && (forall j: nat | j < |net.nodes| && j != i ::
                  next.nodes[j] == net.nodes[j] && next.changedHere[j] == net.changedHere[j])
            && next.published == net.published
            && next.heard <= net.heard + {step.copy}
            && (forall c <- next.inFlight :: c in net.inFlight)
  {
    hide NodeOk, MsgOk, OwnIsUnique, HeardOk, Adopt, Guard;
  }

  lemma DeliverKeepsInv(h: Hash, net: Net, step: Step)
    requires Inv(h, net) && step.Deliver? && Enabled(net, step)
    ensures Inv(h, Next(h, net, step))
  {
    DeliverTouches(h, net, step);
    DeliverNodeOk(h, net, step);
    DeliverFrame(h, net, step);
    hide NodeOk, MsgOk, OwnIsUnique, HeardOk, Next;
    var next := Next(h, net, step);
    var i := step.copy.to;
    assert forall j: nat | j < |next.nodes| :: NodeOk(h, next, j) by {
      OthersKeepNodeOk(h, net, next, i);
    }
    assert forall c <- next.heard :: HeardOk(h, next, c) by {
      HeardKept(h, net, next, i);
    }
    MessagesKept(net, next, i);
  }

  lemma StepKeepsInv(h: Hash, net: Net, step: Step)
    requires Inv(h, net) && Enabled(net, step)
    ensures Inv(h, Next(h, net, step))
  {
    match step
    case Issue(_, _, _) => IssueKeepsInv(h, net, step);
    case Frame(_, _) => FrameKeepsInv(h, net, step);
    case Publish(_, _, _) => PublishKeepsInv(h, net, step);
    case Deliver(_, _) => DeliverKeepsInv(h, net, step);
  }

  lemma {:induction false} RunKeepsInv(h: Hash, net: Net, steps: seq<Step>)
    requires Inv(h, net) && Legal(h, net, steps)
    ensures Inv(h, Run(h, net, steps))
    decreases |steps|
  {
    if steps == [] {
    } else {
      StepKeepsInv(h, net, steps[0]);
      RunKeepsInv(h, Next(h, net, steps[0]), steps[1..]);
    }
  }
}
