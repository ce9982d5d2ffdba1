/** The bot's list of nodes and the two calls that change the power of one of them. A node is
    read as a copy, changed, and written back over the first entry with its id. */
module FarmState {
  import opened Wrappers
  import opened FarmTypes

  datatype Written = Written(nodes: seq<Node>, ok: bool)

  function UpdateNode(nodes: seq<Node>, n: Node): Written {
    match IndexOf(nodes, n.Id())
    case None => Written(nodes, false)
    case Some(i) => Written(nodes[i := n], true)
  }

  function DeleteNode(nodes: seq<Node>, id: NodeId): seq<Node> {
    match IndexOf(nodes, id)
    case None => nodes
    case Some(i) => nodes[..i] + nodes[i + 1..]
  }

  function OnCount(nodes: seq<Node>): nat {
    |InState(nodes, {On})|
  }

  /** What a power call did to the nodes, whether it succeeded, and whether it called the
      chain. */
  datatype Effect = Effect(nodes: seq<Node>, ok: bool, sent: bool)

  function PowerOn(nodes: seq<Node>, id: NodeId, now: Time, chainOk: bool): Effect {
    match IndexOf(nodes, id)
    case None => Effect(nodes, false, false)
    case Some(i) =>
      if nodes[i].power in {On, WakingUp} then Effect(nodes, true, false)
      else if !chainOk then Effect(nodes, false, true)
      else Effect(nodes[i := nodes[i].(power := WakingUp, lastAwake := now, lastPowerChange := now)], true, true)
  }

  /** The chain takes the target, or it does not and then says, if it says anything, whether
      the node is nevertheless down or going down. */
  datatype OffAnswer = Accepted | Rejected(down: Option<bool>)

  /** Everything `powerOff` insists on before it calls the chain. */
  predicate MayPowerOff(n: Node, now: Time) {
    && !n.neverShutDown
    && !n.chain.publicConfig
    && !n.HasClaim(now)
    && !n.rented
    && !n.contracts
    && n.IsUnused()
    && now - n.lastPowerChange >= WAKE_UP_DURATION
  }

  function GoingDown(n: Node, now: Time): Node {
    n.(power := ShuttingDown, lastPowerChange := now)
  }

  function PowerOff(nodes: seq<Node>, id: NodeId, now: Time, answer: OffAnswer): Effect {
    match IndexOf(nodes, id)
    case None => Effect(nodes, false, false)
    case Some(i) =>
      if nodes[i].power in {Off, ShuttingDown} then Effect(nodes, true, false)
      else if !MayPowerOff(nodes[i], now) || OnCount(nodes) < 2 then Effect(nodes, false, false)
      else if answer == Accepted then Effect(nodes[i := GoingDown(nodes[i], now)], true, true)
      else if answer == Rejected(Some(true)) then Effect(nodes[i := GoingDown(nodes[i], now)], false, true)
      else Effect(nodes, false, true)
  }

  // ----- What they keep ---------------------------------------------------------------

  /** The same nodes in the same places, apart from `id`, which keeps its resources and its
      claim. */
  ghost predicate SameButPower(before: seq<Node>, after: seq<Node>, id: NodeId) {
    && |after| == |before|
    && forall j | 0 <= j < |before| ::
         if before[j].Id() == id
         then after[j] == before[j].(power := after[j].power, lastAwake := after[j].lastAwake,
             lastPowerChange := after[j].lastPowerChange)
         else after[j] == before[j]
  }

  lemma PowerOnKeepsTheRest(nodes: seq<Node>, id: NodeId, now: Time, chainOk: bool)
    ensures SameButPower(nodes, PowerOn(nodes, id, now, chainOk).nodes, id)
  {
  }

  lemma PowerOffKeepsTheRest(nodes: seq<Node>, id: NodeId, now: Time, answer: OffAnswer)
    ensures SameButPower(nodes, PowerOff(nodes, id, now, answer).nodes, id)
  {
  }

  /** A power-on succeeds exactly when the node is on or waking up already, or the chain takes
      the target; then it is on or waking up, and if the chain was called it is waking up and
      counts as awake from now on. A failed one, and one of an unknown id, changes nothing. */
  lemma PowerOnWakes(nodes: seq<Node>, id: NodeId, now: Time, chainOk: bool)
    requires UniqueIds(nodes)
    ensures var e := PowerOn(nodes, id, now, chainOk);
            && |e.nodes| == |nodes| && UniqueIds(e.nodes)
            && (!HasId(nodes, id) ==> !e.ok && !e.sent && e.nodes == nodes)
            && forall j | 0 <= j < |nodes| ::
                 if nodes[j].Id() != id then e.nodes[j] == nodes[j]
                 else
                   && (e.sent <==> nodes[j].power == Off || nodes[j].power == ShuttingDown)
                   && (e.ok <==> !e.sent || chainOk)
                   && (e.ok ==> e.nodes[j].power == On || e.nodes[j].power == WakingUp)
                   && e.nodes[j] == if e.sent && chainOk
                                    then nodes[j].(power := WakingUp, lastAwake := now, lastPowerChange := now)
                                    else nodes[j]
  {
  }

  /** What a power-off insists on, guard by guard: the node may be shut down, has no public
      configuration, no running claim, no rent and no other contract, nothing used beyond the
      system's own share, and has kept its power state for half an hour. */
  predicate Idle(n: Node, now: Time) {
    && !n.neverShutDown && !n.chain.publicConfig && !n.rented && !n.contracts
    && n.claimedUntil <= now && now - n.lastPowerChange >= 1800
    && n.used.AtMost(n.system)
  }

  lemma MayPowerOffIff(n: Node, now: Time)
    ensures MayPowerOff(n, now) <==> Idle(n, now)
    ensures n.CanShutDown(now) <==> n.power == On && Idle(n, now)
  {
  }

  /** A power-off calls the chain exactly for an idle node that is on or waking up while some
      two nodes are on; the node goes down exactly when the chain takes that, or does not and
      says that the node is down nevertheless, which still counts as a failure. */
  lemma PowerOffTakesDown(nodes: seq<Node>, id: NodeId, now: Time, answer: OffAnswer)
    requires UniqueIds(nodes)
    ensures var e := PowerOff(nodes, id, now, answer);
            && |e.nodes| == |nodes|
            && (!HasId(nodes, id) ==> !e.ok && !e.sent && e.nodes == nodes)
            && forall j | 0 <= j < |nodes| ::
                 if nodes[j].Id() != id then e.nodes[j] == nodes[j]
                 else
                   var down := nodes[j].power == Off || nodes[j].power == ShuttingDown;
                   && (e.sent <==> !down && Idle(nodes[j], now) && OnCount(nodes) >= 2)
                   && (e.ok <==> down || (e.sent && answer == Accepted))
                   && e.nodes[j] == if e.sent && (answer == Accepted || answer == Rejected(Some(true)))
                                    then nodes[j].(power := ShuttingDown, lastPowerChange := now) else nodes[j]
  {
    match IndexOf(nodes, id) {
      case None =>
      case Some(i) => MayPowerOffIff(nodes[i], now);
    }
  }

  lemma {:induction false} OnCountAfterUpdate(nodes: seq<Node>, i: nat, n: Node)
    requires i < |nodes|
    ensures OnCount(nodes[i := n]) + (if nodes[i].power == On then 1 else 0)
         == OnCount(nodes) + (if n.power == On then 1 else 0)
    decreases |nodes|
  {
    var k := |nodes| - 1;
    if i == k {
      assert nodes[i := n][..k] == nodes[..k];
    } else {
      assert nodes[i := n][..k] == nodes[..k][i := n];
      OnCountAfterUpdate(nodes[..k], i, n);
    }
  }

  /** A power-off leaves a node on, whatever the chain answers, and takes a node down only if
      every guard held for it. */
  lemma PowerOffIsSafe(nodes: seq<Node>, id: NodeId, now: Time, answer: OffAnswer)
    requires OnCount(nodes) >= 1
    ensures var e := PowerOff(nodes, id, now, answer);
            && OnCount(e.nodes) >= 1 && OnCount(e.nodes) + 1 >= OnCount(nodes)
            && (e.sent ==> OnCount(nodes) >= 2)
            && (forall j | 0 <= j < |nodes| && e.nodes[j] != nodes[j] ::
                  && nodes[j].Id() == id && nodes[j].power in {On, WakingUp}
                  && MayPowerOff(nodes[j], now) && e.sent && e.nodes[j] == GoingDown(nodes[j], now))
            && (e.sent ==> exists j | 0 <= j < |nodes| :: nodes[j].Id() == id && MayPowerOff(nodes[j], now))
  {
    match IndexOf(nodes, id) {
      case None =>
      case Some(i) => OnCountAfterUpdate(nodes, i, GoingDown(nodes[i], now));
    }
  }

  /** A power-on takes no node off. */
  lemma PowerOnKeepsOn(nodes: seq<Node>, id: NodeId, now: Time, chainOk: bool)
    ensures OnCount(PowerOn(nodes, id, now, chainOk).nodes) == OnCount(nodes)
  {
    match IndexOf(nodes, id) {
      case None =>
      case Some(i) =>
        OnCountAfterUpdate(nodes, i, nodes[i].(power := WakingUp, lastAwake := now, lastPowerChange := now));
    }
  }

  /** A claimed node is not sent a power-off. */
  lemma ClaimedIsNotPoweredOff(nodes: seq<Node>, i: nat, now: Time, answer: OffAnswer)
    requires UniqueIds(nodes) && i < |nodes| && nodes[i].HasClaim(now)
    ensures var e := PowerOff(nodes, nodes[i].Id(), now, answer);
            !e.sent && e.nodes == nodes && (e.ok ==> nodes[i].power in {Off, ShuttingDown})
  {
  }

  /** The node with the id goes, the others stay. */
  lemma DeleteUnique(nodes: seq<Node>, id: NodeId)
    requires UniqueIds(nodes)
    ensures UniqueIds(DeleteNode(nodes, id))
    ensures forall n | n in DeleteNode(nodes, id) :: n in nodes && n.Id() != id
    ensures forall n | n in nodes && n.Id() != id :: n in DeleteNode(nodes, id)
  {
  }
}
