/** What one round does to each node it visits: the refreshed node is stored, and a node that
    is off is woken for one of four reasons. What is written back was read before a forced
    power-on, which it can undo. */
module FarmVisits {
  import opened Wrappers
  import opened Sequences
  import opened FarmTypes
  import opened FarmState
  import opened FarmRuns

  /** A known node is replaced by its refreshed self, even if the refresh failed half way; an
      unknown one is added if it could be read. */
  lemma AddOrUpdateIs(nodes: seq<Node>, id: NodeId, v: View, cfg: Config, now: Time)
    requires UniqueIds(nodes)
    ensures var w := AddOrUpdate(nodes, id, v, cfg, now);
            && UniqueIds(w.nodes)
            && (forall i | 0 <= i < |nodes| && nodes[i].Id() == id ::
                  w == Written(nodes[i := Update(nodes[i], v, cfg, now).node], Update(nodes[i], v, cfg, now).ok))
            && (!HasId(nodes, id) ==>
                  match NewNode(id, v, cfg, now)
                  case None => w == Written(nodes, false)
                  case Some(n) => n.Id() == id && w == Written(nodes + [n], true))
  {
    match IndexOf(nodes, id) {
      case None => if NewNode(id, v, cfg, now).Some? { NewNodeHasId(id, v, cfg, now); }
      case Some(i) => UpdateKeepsClaim(nodes[i], v, cfg, now);
    }
  }

  /** A node is woken exactly when it is off, the limit of the round is not reached and the
      proxy answers, and either it was last seen more than a day ago, or its power state is
      half an hour old and today's wake-up time has come since it was last awake or the draw
      falls on it, ten times a month at most. */
  lemma ShouldWakeIff(n: Node, a: Answers, calls: nat, cfg: Config, c: Clock)
    ensures var w := ShouldWake(n, a, calls, cfg, c);
            && (w.wake <==>
                  && n.power == Off && calls < cfg.wakeUpLimit && a.seenAt.Some?
                  && (|| c.now - a.seenAt.value > 24 * 3600
                      || (&& c.now - n.lastPowerChange >= 30 * 60
                          && (|| (n.lastAwake < c.periodic && c.periodic < c.now)
                              || (n.randomWakeUps < 10 && a.draw)))))
            && (|| w.node == n || w.node == n.(lastPeriodicWakeUp := c.now)
                || w.node == n.(randomWakeUps := n.randomWakeUps + 1))
            && (w.node.randomWakeUps > n.randomWakeUps ==> w.wake && n.randomWakeUps < 10)
            && (!w.wake ==> w.node == n)
  {
  }

  function Woken(n: Node, now: Time): Node {
    n.(power := WakingUp, lastAwake := now, lastPowerChange := now)
  }

  /** A node that must not sleep and is off. */
  predicate Forced(n: Node) { n.power == Off && (n.neverShutDown || n.rented) }

  /** The refreshed node as the visit leaves it. */
  function Final(n: Node, a: Answers, calls: nat, cfg: Config, c: Clock): Node {
    var kept := if c.reset then n.(randomWakeUps := 0) else n;
    var w := ShouldWake(kept, a, calls, cfg, c);
    if w.wake then (if a.second then Woken(w.node, c.now) else w.node)
    else if Forced(n) && a.first && !c.reset then Woken(n, c.now)
    else kept
  }

  lemma WriteAt(nodes: seq<Node>, i: nat, n: Node)
    requires UniqueIds(nodes) && i < |nodes| && n.Id() == nodes[i].Id()
    ensures UpdateNode(nodes, n) == Written(nodes[i := n], true) && UniqueIds(nodes[i := n])
  {
    assert IndexOf(nodes, n.Id()) == Some(i);
  }

  lemma PowerOnAt(nodes: seq<Node>, i: nat, now: Time, chainOk: bool)
    requires UniqueIds(nodes) && i < |nodes| && nodes[i].power == Off
    ensures var e := PowerOn(nodes, nodes[i].Id(), now, chainOk);
            e.ok == chainOk && e.nodes == if chainOk then nodes[i := Woken(nodes[i], now)] else nodes
  {
    assert IndexOf(nodes, nodes[i].Id()) == Some(i);
  }

  lemma WakeUpIs(nodes: seq<Node>, i: nat, n: Node, a: Answers, calls: nat, cfg: Config, c: Clock)
    requires UniqueIds(nodes) && i < |nodes| && n.Id() == nodes[i].Id()
    ensures var w, v := ShouldWake(n, a, calls, cfg, c), WakeUp(nodes, n, a, calls, cfg, c);
            && v.calls == (if w.wake && a.second then calls + 1 else calls)
            && v.nodes == if !w.wake then nodes
                          else nodes[i := if a.second then Woken(w.node, c.now) else w.node]
  {
    var w := ShouldWake(n, a, calls, cfg, c);
    if w.wake {
      WriteAt(nodes, i, w.node);
      PowerOnAt(nodes[i := w.node], i, c.now, a.second);
      assert nodes[i := w.node][i := Woken(w.node, c.now)] == nodes[i := Woken(w.node, c.now)];
    }
  }

  /** The list once a node that must not sleep was turned on. */
  function TurnedOn(nodes: seq<Node>, i: nat, a: Answers, now: Time): (on: seq<Node>)
    requires i < |nodes|
    ensures |on| == |nodes| && on[i].Id() == nodes[i].Id()
  {
    if Forced(nodes[i]) && a.first then nodes[i := Woken(nodes[i], now)] else nodes
  }

  lemma TurnedOnIs(nodes: seq<Node>, i: nat, a: Answers, now: Time)
    requires UniqueIds(nodes) && i < |nodes|
    ensures UniqueIds(TurnedOn(nodes, i, a, now))
    ensures Forced(nodes[i]) ==> PowerOn(nodes, nodes[i].Id(), now, a.first).nodes == TurnedOn(nodes, i, a, now)
    ensures !Forced(nodes[i]) ==> TurnedOn(nodes, i, a, now) == nodes
  {
    if Forced(nodes[i]) { PowerOnAt(nodes, i, now, a.first); }
  }

  lemma WrittenOver(nodes: seq<Node>, i: nat, a: Answers, now: Time, n: Node)
    requires i < |nodes|
    ensures TurnedOn(nodes, i, a, now)[i := n] == nodes[i := n]
  {
  }

  lemma FinishVisitIs(nodes: seq<Node>, i: nat, a: Answers, calls: nat, cfg: Config, c: Clock)
    requires UniqueIds(nodes) && i < |nodes|
    ensures FinishVisit(nodes, nodes[i], a, calls, cfg, c).nodes == nodes[i := Final(nodes[i], a, calls, cfg, c)]
  {
    var n, on := nodes[i], TurnedOn(nodes, i, a, c.now);
    TurnedOnIs(nodes, i, a, c.now);
    WrittenOver(nodes, i, a, c.now, Final(n, a, calls, cfg, c));
    if c.reset {
      var kept := n.(randomWakeUps := 0);
      WrittenOver(nodes, i, a, c.now, kept);
      WriteAt(on, i, kept);
      WakeUpIs(nodes[i := kept], i, kept, a, calls, cfg, c);
    } else {
      WakeUpIs(on, i, n, a, calls, cfg, c);
    }
  }

  /** A visit to a known node stores its refreshed self, woken if there is a reason and the
      chain goes along, and touches no other node. */
  lemma VisitIs(nodes: seq<Node>, i: nat, a: Answers, calls: nat, cfg: Config, c: Clock)
    requires UniqueIds(nodes) && i < |nodes|
    ensures var n := Update(nodes[i], a.view, cfg, c.now).node;
            Visit(nodes, nodes[i].Id(), a, calls, cfg, c).nodes == nodes[i := Final(n, a, calls, cfg, c)]
  {
    var n := Update(nodes[i], a.view, cfg, c.now).node;
    AddOrUpdateIs(nodes, nodes[i].Id(), a.view, cfg, c.now);
    UpdateKeepsClaim(nodes[i], a.view, cfg, c.now);
    var w := AddOrUpdate(nodes, nodes[i].Id(), a.view, cfg, c.now).nodes;
    assert w == nodes[i := n] && w[i].Id() == nodes[i].Id();
    assert IndexOf(w, nodes[i].Id()) == Some(i);
    FinishVisitIs(w, i, a, calls, cfg, c);
    assert w[i := Final(n, a, calls, cfg, c)] == nodes[i := Final(n, a, calls, cfg, c)];
  }

  lemma VisitRefreshes(nodes: seq<Node>, id: NodeId, a: Answers, calls: nat, cfg: Config, c: Clock, j: nat)
    requires UniqueIds(nodes) && j < |nodes| && nodes[j].Id() == id
    ensures var after := Visit(nodes, id, a, calls, cfg, c).nodes;
            && UniqueIds(after) && j < |after|
            && after[j] == Final(Update(nodes[j], a.view, cfg, c.now).node, a, calls, cfg, c)
            && after[j].Id() == id
  {
    VisitIs(nodes, j, a, calls, cfg, c);
    UpdateKeepsClaim(nodes[j], a.view, cfg, c.now);
    FinalKeepsId(Update(nodes[j], a.view, cfg, c.now).node, a, calls, cfg, c);
  }

  /** A node that must not sleep and that the chain turned on shows as waking up unless what
      was read before is written back over it: on the round that resets the random wake-ups,
      or when a wake-up follows that the chain refuses. */
  lemma ForcedWakeUpShowsIff(n: Node, a: Answers, calls: nat, cfg: Config, c: Clock)
    requires Forced(n) && a.first
    ensures Final(n, a, calls, cfg, c).power ==
            (if (if ShouldWake(if c.reset then n.(randomWakeUps := 0) else n, a, calls, cfg, c).wake
                 then a.second else !c.reset)
             then WakingUp else Off)
  {
  }

  // ----- A round of visits ------------------------------------------------------------------

  /** A visit leaves the nodes with other ids where and as they are. */
  lemma VisitLeavesOthers(nodes: seq<Node>, id: NodeId, a: Answers, calls: nat, cfg: Config, c: Clock, j: nat)
    requires UniqueIds(nodes) && j < |nodes| && nodes[j].Id() != id && nodes[j].Id() != 0
    ensures var after := Visit(nodes, id, a, calls, cfg, c).nodes;
            UniqueIds(after) && j < |after| && after[j] == nodes[j]
  {
    var w := AddOrUpdate(nodes, id, a.view, cfg, c.now);
    AddOrUpdateIs(nodes, id, a.view, cfg, c.now);
    match IndexOf(w.nodes, id) {
      case None =>
      case Some(i) =>
        FinishVisitIs(w.nodes, i, a, calls, cfg, c);
        FinalKeepsId(w.nodes[i], a, calls, cfg, c);
    }
  }

  lemma FinalKeepsId(n: Node, a: Answers, calls: nat, cfg: Config, c: Clock)
    ensures Final(n, a, calls, cfg, c).Id() == n.Id()
  {
  }

  /** The bot's nodes: those not excluded, and of these the included ones if there are any. */
  predicate InHand(id: NodeId, cfg: Config) {
    (forall x | x in cfg.excluded :: x != id) && (|cfg.included| > 0 ==> exists x :: x in cfg.included && x == id)
  }

  lemma ManagedIff(id: NodeId, cfg: Config)
    ensures Managed(id, cfg) <==> InHand(id, cfg)
  {
  }

  /** The visits to other ids, and those to nodes not in the bot's hands, leave a node where and
      as it is. */
  lemma {:induction false} VisitsLeaveOthers(nodes: seq<Node>, ids: seq<NodeId>, answers: NodeId -> Answers,
      cfg: Config, c: Clock, j: nat)
    requires UniqueIds(nodes) && j < |nodes| && nodes[j].Id() != 0
    requires nodes[j].Id() !in ids || !InHand(nodes[j].Id(), cfg)
    ensures var after := VisitAll(nodes, ids, answers, cfg, c).nodes;
            UniqueIds(after) && j < |after| && after[j] == nodes[j]
    decreases |ids|
  {
    if ids != [] {
      var k := |ids| - 1;
      var v := VisitAll(nodes, ids[..k], answers, cfg, c);
      VisitsLeaveOthers(nodes, ids[..k], answers, cfg, c, j);
      ManagedIff(nodes[j].Id(), cfg);
      if nodes[j].Id() != ids[k] {
        VisitLeavesOthers(v.nodes, ids[k], answers(ids[k]), v.calls, cfg, c, j);
      }
    }
  }

  /** What a visit left in a place the later visits of a round leave there. */
  lemma {:induction false} LaterVisitsLeave(nodes: seq<Node>, ids: seq<NodeId>, answers: NodeId -> Answers,
      cfg: Config, c: Clock, k: nat, j: nat)
    requires NoRepeats(ids) && k < |ids| && ids[k] != 0
    requires var turn := VisitAll(nodes, ids[..k + 1], answers, cfg, c).nodes;
             UniqueIds(turn) && j < |turn| && turn[j].Id() == ids[k]
    ensures var turn, after := VisitAll(nodes, ids[..k + 1], answers, cfg, c).nodes,
                VisitAll(nodes, ids, answers, cfg, c).nodes;
            UniqueIds(after) && j < |after| && after[j] == turn[j]
    decreases |ids|
  {
    var last := |ids| - 1;
    if k == last {
      assert ids[..k + 1] == ids;
    } else {
      assert ids[..last][..k + 1] == ids[..k + 1];
      LaterVisitsLeave(nodes, ids[..last], answers, cfg, c, k, j);
      var v := VisitAll(nodes, ids[..last], answers, cfg, c);
      VisitLeavesOthers(v.nodes, ids[last], answers(ids[last]), v.calls, cfg, c, j);
    }
  }

  /** A round leaves every known node it visits refreshed by its own answers, and woken if there
      is a reason; the wake-ups counted up to its turn decide about the limit. */
  lemma RoundRefreshes(nodes: seq<Node>, ids: seq<NodeId>, answers: NodeId -> Answers, cfg: Config, c: Clock, j: nat)
      returns (calls: nat)
    requires UniqueIds(nodes) && NoRepeats(ids) && j < |nodes|
    requires nodes[j].Id() in ids && nodes[j].Id() != 0 && InHand(nodes[j].Id(), cfg)
    ensures calls <= cfg.wakeUpLimit
    ensures var after, a := VisitAll(nodes, ids, answers, cfg, c).nodes, answers(nodes[j].Id());
            && UniqueIds(after) && j < |after| && after[j].Id() == nodes[j].Id()
            && after[j] == Final(Update(nodes[j], a.view, cfg, c.now).node, a, calls, cfg, c)
  {
    var id := nodes[j].Id();
    var k: nat :| k < |ids| && ids[k] == id;
    assert id !in ids[..k];
    VisitsLeaveOthers(nodes, ids[..k], answers, cfg, c, j);
    WakeUpsWithinLimit(nodes, ids[..k], answers, cfg, c);
    var v := VisitAll(nodes, ids[..k], answers, cfg, c);
    calls := v.calls;
    ManagedIff(id, cfg);
    VisitRefreshes(v.nodes, id, answers(id), calls, cfg, c, j);
    assert ids[..k + 1][..k] == ids[..k];
    assert VisitAll(nodes, ids[..k + 1], answers, cfg, c) == Visit(v.nodes, id, answers(id), calls, cfg, c);
    LaterVisitsLeave(nodes, ids, answers, cfg, c, k, j);
  }

  // ----- New nodes and the operator ---------------------------------------------------------

  /** A new node shows what was answered: it can be added exactly when every answer is there,
      the node's own ones not being asked for if it sleeps and may be skipped. */
  lemma NewNodeShows(id: NodeId, v: View, cfg: Config, now: Time)
    ensures var r := NewNode(id, v, cfg, now);
            var asleep := v.target.Some? && !v.target.value.up && cfg.continueOnError;
            && (r.Some? <==>
                  && v.chain.Some? && v.price.Some? && v.rent != Failed && v.contracts.Some? && v.target.Some?
                  && (asleep || (v.statistics.Some? && v.pools && v.gpus.Some?)))
            && (r.Some? ==>
                  var n, t := r.value, v.target.value;
                  && n.chain == v.chain.value.(id := id)
                  && n.power == (if t.targetUp then (if t.up then On else WakingUp)
                                 else (if t.up then ShuttingDown else Off))
                  && (n.rented <==> v.rent.Contract? && v.rent.id != 0) && (n.contracts <==> v.contracts.value > 0)
                  && (n.dedicated <==> v.price.value != 0 || cfg.dedicatedFarm)
                  && (n.neverShutDown <==> id in cfg.neverShutDown) && !n.HasClaim(ZERO_TIME)
                  && if asleep then n.total == v.chain.value.resources && n.used == NOTHING
                     else v.statistics.value == Statistics(n.total, n.used, n.system, n.publicIPsUsed)
                          && v.gpus.value == n.gpus)
  {
    if v.chain.Some? {
      var start := ZERO_NODE.(chain := v.chain.value.(id := id), neverShutDown := id in cfg.neverShutDown);
      var r := ReadChain(start, v, cfg, now);
      if r.ok {
        ReadChainIsCurrent(start, v, cfg, now);
        if ReadResources(r.node, false, v).ok { ReadResourcesIsCurrent(r.node, false, v); }
      }
    }
  }

  /** The operator brings a node in exactly when it is not there, not excluded, listed as
      included if nothing is excluded, and can be read. */
  lemma IncludeIs(nodes: seq<Node>, id: NodeId, v: View, cfg: Config, now: Time)
    ensures var after := Included(nodes, id, v, cfg, now);
            if !HasId(nodes, id) && id !in cfg.excluded && (cfg.excluded == [] ==> id in cfg.included)
               && NewNode(id, v, cfg, now).Some?
            then after == nodes + [NewNode(id, v, cfg, now).value]
            else after == nodes
  {
    if HasId(nodes, id) { assert IndexOf(nodes, id).Some?; }
  }

  /** A node the operator switched is no longer the bot's; the others stay as they are. A call
      that is refused or fails leaves every node in the list. */
  lemma OperatorTakesOver(nodes: seq<Node>, id: NodeId, paid: bool, answer: OffAnswer, chainOk: bool, cfg: Config,
      now: Time)
    requires UniqueIds(nodes)
    ensures var off, on := Next(nodes, OperatorOff(id, paid, answer), cfg, now).nodes,
                Next(nodes, OperatorOn(id, paid, chainOk), cfg, now).nodes;
            && (!paid ==> off == nodes && on == nodes)
            && (forall x :: HasId(off, x) <==>
                  HasId(nodes, x) && !(x == id && paid && PowerOff(nodes, id, now, answer).ok))
            && (forall x :: HasId(on, x) <==>
                  HasId(nodes, x) && !(x == id && paid && PowerOn(nodes, id, now, chainOk).ok))
            && (forall n | n in nodes && n.Id() != id :: n in off && n in on)
  {
    PowerOffTakesDown(nodes, id, now, answer);
    PowerOnWakes(nodes, id, now, chainOk);
    OperateIs(nodes, PowerOff(nodes, id, now, answer), id);
    OperateIs(nodes, PowerOn(nodes, id, now, chainOk), id);
  }

  lemma OperateIs(nodes: seq<Node>, e: Effect, id: NodeId)
    requires UniqueIds(nodes) && |e.nodes| == |nodes|
    requires forall j | 0 <= j < |nodes| ::
               e.nodes[j].Id() == nodes[j].Id() && (nodes[j].Id() != id ==> e.nodes[j] == nodes[j])
    ensures forall x :: HasId(Operate(nodes, e, id).nodes, x) <==> HasId(nodes, x) && !(x == id && e.ok)
    ensures forall n | n in nodes && n.Id() != id :: n in Operate(nodes, e, id).nodes
  {
    var after := Operate(nodes, e, id).nodes;
    if e.ok { DeleteUnique(e.nodes, id); }
    forall n | n in nodes && n.Id() != id ensures n in after {
      var j :| 0 <= j < |nodes| && nodes[j] == n;
      assert e.nodes[j] in e.nodes;
    }
    forall x ensures HasId(after, x) <==> HasId(nodes, x) && !(x == id && e.ok) {
      if HasId(after, x) {
        var i :| 0 <= i < |after| && after[i].Id() == x;
        assert after[i] in after && after[i] in e.nodes;
        var j :| 0 <= j < |e.nodes| && e.nodes[j] == after[i];
        assert nodes[j].Id() == x;
      }
      if HasId(nodes, x) && !(x == id && e.ok) {
        var j :| 0 <= j < |nodes| && nodes[j].Id() == x;
        assert e.nodes[j] in e.nodes && e.nodes[j] in after;
        var i :| 0 <= i < |after| && after[i] == e.nodes[j];
      }
    }
  }
}
