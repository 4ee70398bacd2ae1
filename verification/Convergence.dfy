/** Why a MultiSync group agrees, although a relay publishes under its own id what it adopted under
    another's. Once nothing is owed and every published state has been heard, all contents are one. */
module Convergence {
  import opened Ordering
  import opened Brightness
  import opened MultiSync

  /** Nothing is owed, and every published state reached every other node past the guards. */
  ghost predicate AllHeard(net: Net) {
    && (forall i: nat | i < |net.nodes| :: !net.nodes[i].OwesPublication())
    && (forall m <- net.published, j: nat | j < |net.nodes| && j != m.sender :: Copy(j, m) in net.heard)
  }

  /** No two states published in this run share an ordering hash. */
  ghost predicate NoCollision(h: Hash, net: Net) {
    forall a <- net.published, b <- net.published ::
      h(a.payload.content) == h(b.payload.content) ==> a.payload.content == b.payload.content
  }

  function Keys(net: Net, i: nat): Key
    requires i < |net.nodes|
  {
    net.nodes[i].engine.key
  }

  /** The message that carries node i's present time and content. */
  lemma Announcement(h: Hash, net: Net, i: nat) returns (m: Msg)
    requires Inv(h, net) && AllHeard(net) && i < |net.nodes|
    ensures m in net.published && AnnouncedBy(net, i, m) && m.payload.instanceId == net.nodes[i].engine.id
  {
    assert NodeOk(h, net, i);
    m :| m in net.published && AnnouncedBy(net, i, m);
    assert MsgOk(net, m);
  }

  /** Whoever did not send a published state holds a key at least as high. */
  lemma HeardBy(h: Hash, net: Net, m: Msg, j: nat)
    requires Inv(h, net) && AllHeard(net) && m in net.published && j < |net.nodes| && j != m.sender
    ensures PublishedKey(h, m.payload).Leq(Keys(net, j))
  {
    assert Copy(j, m) in net.heard;
    assert HeardOk(h, net, Copy(j, m));
  }

  lemma SameTime(h: Hash, net: Net, i: nat, j: nat)
    requires Inv(h, net) && AllHeard(net) && i < |net.nodes| && j < |net.nodes|
    ensures Keys(net, i).at == Keys(net, j).at
  {
    if i != j {
      var a := Announcement(h, net, i);
      HeardBy(h, net, a, j);
      var b := Announcement(h, net, j);
      HeardBy(h, net, b, i);
    }
  }

  /** At one common, changed time: what one node announces bounds every other node's (id, hash). */
  lemma AnnouncementBounds(h: Hash, net: Net, i: nat, j: nat)
    requires Inv(h, net) && AllHeard(net) && i < |net.nodes| && j < |net.nodes| && i != j
    requires Keys(net, i).at > 0
    ensures SeqLeq(net.nodes[i].engine.id, Keys(net, j).id)
    ensures net.nodes[i].engine.id == Keys(net, j).id ==> SeqLeq(Keys(net, i).hash, Keys(net, j).hash)
  {
    SameTime(h, net, i, j);
    var m := Announcement(h, net, i);
    HeardBy(h, net, m, j);
    assert NodeOk(h, net, i);
  }

  /** Node a's id is at least every id. */
  ghost predicate GreatestId(net: Net, a: nat, except: int) {
    && a < |net.nodes|
    && a != except
    && forall i: nat | i < |net.nodes| && i != except :: SeqLeq(net.nodes[i].engine.id, net.nodes[a].engine.id)
  }

  lemma {:induction false} FindGreatest(net: Net, except: int, upTo: nat, w: nat) returns (a: nat)
    requires upTo <= |net.nodes| && w < |net.nodes| && w != except
    ensures a < |net.nodes| && a != except
    ensures SeqLeq(net.nodes[w].engine.id, net.nodes[a].engine.id)
    ensures forall i: nat | i < upTo && i != except :: SeqLeq(net.nodes[i].engine.id, net.nodes[a].engine.id)
  {
    a := w;
    if upTo == 0 {
    } else {
      var last := upTo - 1;
      var best := w;
      if last != except {
        SeqLessTotal(net.nodes[last].engine.id, net.nodes[w].engine.id);
        if SeqLess(net.nodes[w].engine.id, net.nodes[last].engine.id) {
          best := last;
        }
      }
      a := FindGreatest(net, except, last, best);
      SeqLeqTransitive(net.nodes[w].engine.id, net.nodes[best].engine.id, net.nodes[a].engine.id);
      if last != except {
        SeqLeqTransitive(net.nodes[last].engine.id, net.nodes[best].engine.id, net.nodes[a].engine.id);
      }
    }
  }

  /** A stored key's id is always the id of some node. */
  lemma KeyIdIsANode(h: Hash, net: Net, i: nat) returns (s: nat)
    requires Inv(h, net) && i < |net.nodes| && Keys(net, i).at > 0
    ensures s < |net.nodes| && net.nodes[s].engine.id == Keys(net, i).id
    ensures !net.changedHere[i] ==> s != i
    ensures net.changedHere[i] ==> s == i
  {
    assert NodeOk(h, net, i);
    if net.changedHere[i] {
      s := i;
    } else {
      var m :| m in net.published && TakenFrom(h, net, i, m);
      assert MsgOk(net, m);
      s := m.sender;
    }
  }

  /** Everyone but the holder of the greatest id stores that id. */
  lemma GreatestIdIsStored(h: Hash, net: Net, a: nat, j: nat)
    requires Inv(h, net) && AllHeard(net) && GreatestId(net, a, -1) && j < |net.nodes| && j != a
    requires Keys(net, a).at > 0
    ensures Keys(net, j).id == net.nodes[a].engine.id
  {
    AnnouncementBounds(h, net, a, j);
    SameTime(h, net, a, j);
    var s := KeyIdIsANode(h, net, j);
    SeqLeqAntisymmetric(net.nodes[s].engine.id, net.nodes[a].engine.id);
  }

  /** Two nodes share the greatest id: any node's hash is at most any other's. */
  lemma SharedGreatestId(h: Hash, net: Net, a: nat, b: nat, i: nat, j: nat)
    requires Inv(h, net) && AllHeard(net) && GreatestId(net, a, -1) && GreatestId(net, b, -1) && a != b
    requires Keys(net, a).at > 0 && i < |net.nodes| && j < |net.nodes| && i != j
    ensures SeqLeq(Keys(net, i).hash, Keys(net, j).hash)
  {
    var top := net.nodes[a].engine.id;
    SeqLeqAntisymmetric(net.nodes[a].engine.id, net.nodes[b].engine.id);
    SameTime(h, net, a, b);
    forall k: nat | k < |net.nodes|
      ensures Keys(net, k).id == top && Keys(net, k).at == Keys(net, a).at
    {
      SameTime(h, net, a, k);
      if k != a {
        GreatestIdIsStored(h, net, a, k);
      } else {
        GreatestIdIsStored(h, net, b, k);
      }
    }
    assert NodeOk(h, net, i);
    if net.changedHere[i] {
      AnnouncementBounds(h, net, i, j);
    } else {
      var m :| m in net.published && TakenFrom(h, net, i, m);
      assert MsgOk(net, m);
      if m.sender != j {
        HeardBy(h, net, m, j);
      } else {
        var c := if j != a then a else b;
        HeardBy(h, net, m, c);
        AnnouncementBounds(h, net, c, j);
        SeqLeqTransitive(Keys(net, i).hash, Keys(net, c).hash, Keys(net, j).hash);
      }
    }
  }

  /** Node a alone has the greatest id: all others took the same state from it. */
  lemma OthersFollowGreatest(h: Hash, net: Net, a: nat, i: nat, j: nat) returns (m: Msg)
    requires Inv(h, net) && AllHeard(net) && GreatestId(net, a, -1)
    requires forall k: nat | k < |net.nodes| && k != a :: net.nodes[k].engine.id != net.nodes[a].engine.id
    requires Keys(net, a).at > 0 && i < |net.nodes| && j < |net.nodes| && i != a && j != a
    ensures Keys(net, i).hash == Keys(net, j).hash
    ensures m in net.published && m.sender == a && TakenFrom(h, net, i, m)
  {
    m := TakenFromGreatest(h, net, a, i);
    var n := TakenFromGreatest(h, net, a, j);
    HeardBy(h, net, m, j);
    HeardBy(h, net, n, i);
    SeqLeqAntisymmetric(Keys(net, i).hash, Keys(net, j).hash);
  }

  lemma TakenFromGreatest(h: Hash, net: Net, a: nat, i: nat) returns (m: Msg)
    requires Inv(h, net) && AllHeard(net) && GreatestId(net, a, -1)
    requires forall k: nat | k < |net.nodes| && k != a :: net.nodes[k].engine.id != net.nodes[a].engine.id
    requires Keys(net, a).at > 0 && i < |net.nodes| && i != a
    ensures m in net.published && m.sender == a && TakenFrom(h, net, i, m)
    ensures forall k: nat | k < |net.nodes| && k != a ::
              Keys(net, k).id == net.nodes[a].engine.id && Keys(net, k).at == Keys(net, a).at
  {
    forall k: nat | k < |net.nodes| && k != a
      ensures Keys(net, k).id == net.nodes[a].engine.id && Keys(net, k).at == Keys(net, a).at
    {
      SameTime(h, net, a, k);
      GreatestIdIsStored(h, net, a, k);
    }
    assert NodeOk(h, net, i);
    assert Keys(net, i).id != net.nodes[i].engine.id;
    m :| m in net.published && TakenFrom(h, net, i, m);
    assert MsgOk(net, m);
  }

  /** The holder of the greatest id never hears itself, so it is the second greatest id that ties it in. */
  lemma GreatestFollowsSecond(h: Hash, net: Net, a: nat, s: nat)
    requires Inv(h, net) && AllHeard(net) && GreatestId(net, a, -1) && GreatestId(net, s, a)
    requires forall k: nat | k < |net.nodes| && k != a :: net.nodes[k].engine.id != net.nodes[a].engine.id
    requires Keys(net, a).at > 0
    ensures Keys(net, a).hash == Keys(net, s).hash
  {
    SameTime(h, net, a, s);
    assert NodeOk(h, net, a) && NodeOk(h, net, s);
    var m := OthersFollowGreatest(h, net, a, s, s);
    assert MsgOk(net, m) && OwnIsUnique(net, m);
    if !net.changedHere[a] {
      AnnouncementBounds(h, net, a, s);
      GreatestIdIsStored(h, net, a, s);
      AnnouncementBounds(h, net, s, a);
      var x := KeyIdIsANode(h, net, a);
      SeqLeqAntisymmetric(net.nodes[s].engine.id, net.nodes[x].engine.id);
      SeqLeqAntisymmetric(Keys(net, a).hash, Keys(net, s).hash);
    }
  }

  /** All ordering hashes are equal, whatever the hash function. */
  lemma HashesAgree(h: Hash, net: Net, i: nat, j: nat)
    requires Inv(h, net) && AllHeard(net) && i < |net.nodes| && j < |net.nodes|
    requires Keys(net, i).at > 0
    ensures Keys(net, i).hash == Keys(net, j).hash
  {
    if i != j {
      SameTime(h, net, i, j);
      var a := FindGreatest(net, -1, |net.nodes|, i);
      SameTime(h, net, i, a);
      if b: nat :| b < |net.nodes| && b != a && net.nodes[b].engine.id == net.nodes[a].engine.id {
        SharedGreatestId(h, net, a, b, i, j);
        SharedGreatestId(h, net, a, b, j, i);
        SeqLeqAntisymmetric(Keys(net, i).hash, Keys(net, j).hash);
      } else {
        var s := FindGreatest(net, a, |net.nodes|, if i != a then i else j);
        GreatestFollowsSecond(h, net, a, s);
        if i != a {
          var _ := OthersFollowGreatest(h, net, a, i, s);
        }
        if j != a {
          var _ := OthersFollowGreatest(h, net, a, j, s);
        }
      }
    }
  }

  /** The main result on states: a settled group holds one ceiling fade and one gain fade. */
  lemma SettledNodesAgree(h: Hash, net: Net, i: nat, j: nat)
    requires Inv(h, net) && AllHeard(net) && NoCollision(h, net) && i < |net.nodes| && j < |net.nodes|
    ensures net.nodes[i].engine.content == net.nodes[j].engine.content
  {
    SameTime(h, net, i, j);
    assert NodeOk(h, net, i) && NodeOk(h, net, j);
    if Keys(net, i).at > 0 {
      HashesAgree(h, net, i, j);
      var a := Announcement(h, net, i);
      var b := Announcement(h, net, j);
    }
  }

  /** The main result on runs, for any node ids, equal or distinct. */
  lemma ConvergesWhenSettled(h: Hash, ids: seq<Bytes>, steps: seq<Step>)
    requires Legal(h, StartNet(ids), steps)
    requires AllHeard(Run(h, StartNet(ids), steps)) && NoCollision(h, Run(h, StartNet(ids), steps))
    ensures var end := Run(h, StartNet(ids), steps);
            forall i: nat, j: nat | i < |end.nodes| && j < |end.nodes| ::
              end.nodes[i].engine.content == end.nodes[j].engine.content
  {
    StartKeepsInv(h, ids);
    RunKeepsInv(h, StartNet(ids), steps);
    var end := Run(h, StartNet(ids), steps);
    forall i: nat, j: nat | i < |end.nodes| && j < |end.nodes|
      ensures end.nodes[i].engine.content == end.nodes[j].engine.content
    {
      SettledNodesAgree(h, end, i, j);
    }
  }
}
