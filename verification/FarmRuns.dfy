/** A whole run of the bot: finds, the operator's calls, and rounds that drop vanished nodes,
    refresh the rest from what the chain and the nodes answer, wake some up and then manage
    the power. Time stands still within one step. */
module FarmRuns {
  import opened Wrappers
  import opened Sequences
  import opened FarmTypes
  import opened FarmState
  import opened FarmPower
  import opened FarmFind

  const DAY: Time := 86400
  const RANDOM_WAKE_UPS_A_MONTH: nat := 10
  const ZERO_TIME: Time := -62135596800

  datatype Config = Config(
    farmIPs: nat, overProvision: nat, dedicatedFarm: bool, continueOnError: bool,
    included: seq<NodeId>, excluded: seq<NodeId>, priority: seq<NodeId>, neverShutDown: seq<NodeId>,
    thresholds: Thresholds, wakeUpLimit: nat)

  // ----- Refreshing a node ----------------------------------------------------------------

  datatype Rent = NotFound | Failed | Contract(id: nat)
  datatype PowerTarget = PowerTarget(up: bool, targetUp: bool)
  datatype Statistics = Statistics(total: Capacity, used: Capacity, system: Capacity, publicIPs: nat)

  /** What the chain and the node answer when the node is read; `None` is an error. The chain
      answers with the node it was asked for. */
  datatype View = View(
    chain: Option<ChainNode>, price: Option<nat>, rent: Rent, contracts: Option<nat>, target: Option<PowerTarget>,
    statistics: Option<Statistics>, pools: bool, gpus: Option<seq<Gpu>>)

  datatype Read = Read(node: Node, ok: bool)

  function SeenPower(t: PowerTarget): PowerState {
    if t.targetUp then (if t.up then On else WakingUp) else (if t.up then ShuttingDown else Off)
  }

  function WithPower(n: Node, t: PowerTarget, now: Time): Node {
    var p := SeenPower(t);
    if n.power == p then n
    else n.(power := p, lastPowerChange := now, lastAwake := if p == On then now else n.lastAwake)
  }

  /** The part of a node that the chain knows, up to the first answer that is an error. */
  function ReadChain(n: Node, v: View, cfg: Config, now: Time): Read {
    if v.price.None? then Read(n, false)
    else
      var priced := n.(dedicated := n.dedicated || v.price.value != 0 || cfg.dedicatedFarm);
      if v.rent == Failed then Read(priced, false)
      else
        var rented := priced.(rented := v.rent.Contract? && v.rent.id != 0);
        if v.contracts.None? then Read(rented, false)
        else
          var contracted := rented.(contracts := v.contracts.value > 0);
          if v.target.None? then Read(contracted, false)
          else Read(WithPower(contracted, v.target.value, now), true)
  }

  /** The part only the node itself knows. Resources under a claim are not overwritten. */
  function ReadResources(n: Node, claimed: bool, v: View): Read {
    if claimed then ReadPoolsAndGpus(n, v)
    else if v.statistics.None? then Read(n, false)
    else
      var s := v.statistics.value;
      ReadPoolsAndGpus(n.(total := s.total, used := s.used, system := s.system, publicIPsUsed := s.publicIPs), v)
  }

  function ReadPoolsAndGpus(n: Node, v: View): Read {
    if !v.pools || v.gpus.None? then Read(n, false) else Read(n.(gpus := v.gpus.value), true)
  }

  /** Updating a node keeps what was read before the first error. */
  function Update(n: Node, v: View, cfg: Config, now: Time): Read {
    if n.Id() == 0 || n.chain.twin == 0 || v.chain.None? then Read(n, false)
    else
      var r := ReadChain(n.(chain := v.chain.value.(id := n.Id()), neverShutDown := n.Id() in cfg.neverShutDown), v,
          cfg, now);
      if !r.ok || (r.node.power in {Off, WakingUp} && cfg.continueOnError) then r
      else ReadResources(r.node, r.node.HasClaim(now), v)
  }

  lemma ReadChainIsCurrent(n: Node, v: View, cfg: Config, now: Time)
    requires ReadChain(n, v, cfg, now).ok
    ensures v.price.Some? && v.rent != Failed && v.contracts.Some? && v.target.Some?
    ensures var r := ReadChain(n, v, cfg, now).node;
            && r.power == SeenPower(v.target.value)
            && r.lastPowerChange == (if r.power == n.power then n.lastPowerChange else now)
            && (r.rented <==> v.rent.Contract? && v.rent.id != 0) && (r.contracts <==> v.contracts.value > 0)
            && (r.dedicated <==> n.dedicated || v.price.value != 0 || cfg.dedicatedFarm)
            && r == n.(dedicated := r.dedicated, rented := r.rented, contracts := r.contracts, power := r.power,
                       lastPowerChange := r.lastPowerChange, lastAwake := r.lastAwake)
            && r.lastAwake == (if r.power == On && n.power != On then now else n.lastAwake)
  {
  }

  lemma ReadResourcesIsCurrent(n: Node, claimed: bool, v: View)
    requires ReadResources(n, claimed, v).ok
    ensures var r := ReadResources(n, claimed, v).node;
            && v.pools && v.gpus == Some(r.gpus)
            && r == n.(gpus := r.gpus, total := r.total, used := r.used, system := r.system,
                publicIPsUsed := r.publicIPsUsed)
            && if claimed then r == n.(gpus := r.gpus)
               else v.statistics == Some(Statistics(r.total, r.used, r.system, r.publicIPsUsed))
  {
  }

  /** A refresh that goes through shows what was answered: the chain's part always, and the
      node's part unless it sleeps and may be skipped or its resources are claimed. */
  lemma UpdateIsCurrent(n: Node, v: View, cfg: Config, now: Time)
    requires Update(n, v, cfg, now).ok
    ensures v.chain.Some? && v.price.Some? && v.rent != Failed && v.contracts.Some? && v.target.Some?
    ensures var r := Update(n, v, cfg, now).node;
            && r.chain == v.chain.value.(id := n.Id())
            && (r.power == On <==> v.target.value.up && v.target.value.targetUp)
            && (r.power == WakingUp <==> !v.target.value.up && v.target.value.targetUp)
            && (r.power == ShuttingDown <==> v.target.value.up && !v.target.value.targetUp)
            && r.lastPowerChange == (if r.power == n.power then n.lastPowerChange else now)
            && r.lastAwake == (if r.power == On && n.power != On then now else n.lastAwake)
            && (r.rented <==> v.rent.Contract? && v.rent.id != 0) && (r.contracts <==> v.contracts.value > 0)
            && (r.neverShutDown <==> n.Id() in cfg.neverShutDown)
            && (r.power in {On, ShuttingDown} || !cfg.continueOnError ==>
                  && v.pools && v.gpus == Some(r.gpus)
                  && if n.HasClaim(now) then r.used == n.used && r.total == n.total
                     else v.statistics == Some(Statistics(r.total, r.used, r.system, r.publicIPsUsed)))
  {
    var start := n.(chain := v.chain.value.(id := n.Id()), neverShutDown := n.Id() in cfg.neverShutDown);
    ReadChainIsCurrent(start, v, cfg, now);
    var r := ReadChain(start, v, cfg, now).node;
    if r.power in {On, ShuttingDown} || !cfg.continueOnError { ReadResourcesIsCurrent(r, r.HasClaim(now), v); }
  }

  const NO_CHAIN_NODE := ChainNode(0, 0, NOTHING, false, false)

  /** A node without any field set. */
  const ZERO_NODE := Node(NO_CHAIN_NODE, NOTHING, NOTHING, NOTHING, 0, [], false, false, false, false,
                          On, ZERO_TIME, ZERO_TIME, ZERO_TIME, 0, ZERO_TIME)

  /** A node met for the first time is assumed on; any error drops it. One that is off counts
      with the totals the chain has. */
  function NewNode(id: NodeId, v: View, cfg: Config, now: Time): Option<Node> {
    if v.chain.None? then None
    else
      var chain := v.chain.value.(id := id);
      var r := ReadChain(ZERO_NODE.(chain := chain, neverShutDown := id in cfg.neverShutDown), v, cfg, now);
      if !r.ok then None
      else if r.node.power in {Off, WakingUp} && cfg.continueOnError then Some(r.node.(total := chain.resources))
      else
        var full := ReadResources(r.node, false, v);
        if full.ok then Some(full.node) else None
  }

  function AddOrUpdate(nodes: seq<Node>, id: NodeId, v: View, cfg: Config, now: Time): Written {
    match IndexOf(nodes, id)
    case Some(i) =>
      var r := Update(nodes[i], v, cfg, now);
      var w := UpdateNode(nodes, r.node);
      Written(w.nodes, w.ok && r.ok)
    case None =>
      match NewNode(id, v, cfg, now)
      case None => Written(nodes, false)
      case Some(n) => Written(nodes + [n], true)
  }

  // ----- Waking nodes up ----------------------------------------------------------------

  /** What one visit to a node is answered: the reads, when the proxy last saw the node, the
      draw for a random wake-up, and the chain's answers to two power-ons. */
  datatype Answers = Answers(view: View, seenAt: Option<Time>, draw: bool, first: bool, second: bool)

  /** The clock of a round: its time, today's periodic wake-up, and whether this is the round
      of the month that resets the random wake-ups. */
  datatype Clock = Clock(now: Time, periodic: Time, reset: bool)

  datatype Wake = Wake(node: Node, wake: bool)

  function ShouldWake(n: Node, a: Answers, calls: nat, cfg: Config, c: Clock): Wake {
    if n.power != Off || calls >= cfg.wakeUpLimit || a.seenAt.None? then Wake(n, false)
    else if c.now - a.seenAt.value > DAY then Wake(n.(lastPeriodicWakeUp := c.now), true)
    else if c.now - n.lastPowerChange < WAKE_UP_DURATION then Wake(n, false)
    else if n.lastAwake < c.periodic < c.now then Wake(n.(lastPeriodicWakeUp := c.now), true)
    else if n.randomWakeUps < RANDOM_WAKE_UPS_A_MONTH && a.draw then
      Wake(n.(randomWakeUps := n.randomWakeUps + 1), true)
    else Wake(n, false)
  }

  datatype Visited = Visited(nodes: seq<Node>, calls: nat)

  /** The node as it was read back after the refresh is what the reset and the wake-up write
      back, whatever a power-on did to it in between. */
  function FinishVisit(nodes: seq<Node>, n: Node, a: Answers, calls: nat, cfg: Config, c: Clock): Visited {
    var on :=
      if n.power == Off && (n.neverShutDown || n.rented) then PowerOn(nodes, n.Id(), c.now, a.first).nodes else nodes;
    if c.reset then
      var kept := n.(randomWakeUps := 0);
      WakeUp(UpdateNode(on, kept).nodes, kept, a, calls, cfg, c)
    else WakeUp(on, n, a, calls, cfg, c)
  }

  function WakeUp(nodes: seq<Node>, n: Node, a: Answers, calls: nat, cfg: Config, c: Clock): Visited {
    var w := ShouldWake(n, a, calls, cfg, c);
    if !w.wake then Visited(nodes, calls)
    else
      var e := PowerOn(UpdateNode(nodes, w.node).nodes, n.Id(), c.now, a.second);
      Visited(e.nodes, if e.ok then calls + 1 else calls)
  }

  /** A node that is not there reads as one without any field set. */
  function Visit(nodes: seq<Node>, id: NodeId, a: Answers, calls: nat, cfg: Config, c: Clock): Visited {
    var w := AddOrUpdate(nodes, id, a.view, cfg, c.now);
    match IndexOf(w.nodes, id)
    case None => Visited(if c.reset then UpdateNode(w.nodes, ZERO_NODE).nodes else w.nodes, calls)
    case Some(i) => FinishVisit(w.nodes, w.nodes[i], a, calls, cfg, c)
  }

  predicate Managed(id: NodeId, cfg: Config) {
    id !in cfg.excluded && (id in cfg.included || cfg.included == [])
  }

  function VisitAll(nodes: seq<Node>, ids: seq<NodeId>, answers: NodeId -> Answers, cfg: Config, c: Clock): Visited
    decreases |ids|
  {
    if ids == [] then Visited(nodes, 0)
    else
      var k := |ids| - 1;
      var v := VisitAll(nodes, ids[..k], answers, cfg, c);
      if Managed(ids[k], cfg) then Visit(v.nodes, ids[k], answers(ids[k]), v.calls, cfg, c) else v
  }

  /** A round makes no more wake-up calls than allowed. */
  lemma {:induction false} WakeUpsWithinLimit(nodes: seq<Node>, ids: seq<NodeId>, answers: NodeId -> Answers,
        cfg: Config, c: Clock)
    ensures VisitAll(nodes, ids, answers, cfg, c).calls <= cfg.wakeUpLimit
    decreases |ids|
  {
    if ids != [] {
      var k := |ids| - 1;
      var v := VisitAll(nodes, ids[..k], answers, cfg, c);
      WakeUpsWithinLimit(nodes, ids[..k], answers, cfg, c);
      VisitWithinLimit(v.nodes, ids[k], answers(ids[k]), v.calls, cfg, c);
    }
  }

  lemma VisitWithinLimit(nodes: seq<Node>, id: NodeId, a: Answers, calls: nat, cfg: Config, c: Clock)
    requires calls <= cfg.wakeUpLimit
    ensures Visit(nodes, id, a, calls, cfg, c).calls <= cfg.wakeUpLimit
  {
    var w := AddOrUpdate(nodes, id, a.view, cfg, c.now).nodes;
    if IndexOf(w, id).Some? {
      var n := w[IndexOf(w, id).value];
      var on := if n.power == Off && (n.neverShutDown || n.rented) then PowerOn(w, n.Id(), c.now, a.first).nodes else w;
      var kept := n.(randomWakeUps := 0);
      WakeUpWithinLimit(UpdateNode(on, kept).nodes, kept, a, calls, cfg, c);
      WakeUpWithinLimit(on, n, a, calls, cfg, c);
    }
  }

  lemma WakeUpWithinLimit(nodes: seq<Node>, n: Node, a: Answers, calls: nat, cfg: Config, c: Clock)
    requires calls <= cfg.wakeUpLimit
    ensures WakeUp(nodes, n, a, calls, cfg, c).calls <= cfg.wakeUpLimit
  {
    assert ShouldWake(n, a, calls, cfg, c).wake ==> calls < cfg.wakeUpLimit;
  }

  // ----- The order of a round -------------------------------------------------------------

  /** The ids of `s` that are in the farm, without those in `seen` and without repeats. */
  function Fresh(seen: seq<NodeId>, s: seq<NodeId>, farm: seq<NodeId>): (r: seq<NodeId>)
    decreases |s|
  {
    if s == [] then seen
    else
      var init, last := Fresh(seen, s[..|s| - 1], farm), s[|s| - 1];
      if last in farm && last !in init then init + [last] else init
  }

  /** The priority nodes of the farm in their order, then the rest in theirs. */
  function Prioritise(priority: seq<NodeId>, farm: seq<NodeId>): seq<NodeId> {
    Fresh(Fresh([], priority, farm), farm, farm)
  }

  lemma {:induction false} FreshIs(seen: seq<NodeId>, s: seq<NodeId>, farm: seq<NodeId>)
    requires NoRepeats(seen)
    ensures NoRepeats(Fresh(seen, s, farm)) && seen <= Fresh(seen, s, farm)
    ensures forall x :: x in Fresh(seen, s, farm) <==> x in seen || (x in s && x in farm)
    decreases |s|
  {
    if s != [] {
      FreshIs(seen, s[..|s| - 1], farm);
      assert s == s[..|s| - 1] + [s[|s| - 1]];
    }
  }

  /** A round's order has every node of the farm once, those with priority first. */
  lemma PrioritiseIs(priority: seq<NodeId>, farm: seq<NodeId>)
    ensures var r := Prioritise(priority, farm);
            && NoRepeats(r) && (forall x :: x in r <==> x in farm)
            && forall i, j | 0 <= i < j < |r| && r[j] in priority :: r[i] in priority
  {
    var first, r := Fresh([], priority, farm), Prioritise(priority, farm);
    FreshIs([], priority, farm);
    FreshIs(first, farm, farm);
    forall i, j | 0 <= i < j < |r| && r[j] in priority ensures r[i] in priority {
      assert r[j] in r && r[j] in first;
      var k :| 0 <= k < |first| && first[k] == r[j];
      assert r[k] == r[j] && k == j;
      assert r[i] == first[i] && first[i] in first;
    }
  }

  // ----- Dropping vanished nodes ------------------------------------------------------------

  predicate Gone(n: Node, farm: seq<NodeId>) { n.Id() !in farm }

  /** The loop drops a vanished node, which moves the next one into its place, and goes on
      with the place after it. */
  function Skipping(nodes: seq<Node>, farm: seq<NodeId>): seq<Node>
    decreases |nodes|
  {
    if nodes == [] then []
    else if !Gone(nodes[0], farm) then [nodes[0]] + Skipping(nodes[1..], farm)
    else if |nodes| == 1 then []
    else [nodes[1]] + Skipping(nodes[2..], farm)
  }

  /** The loop reads the places of the list it began with. Where removing an element leaves
      the old last one in its place beyond the new end (`stale`), the loop still comes to see
      it; where the place is cleared it does not. */
  function Sweep(nodes: seq<Node>, farm: seq<NodeId>, stale: bool): seq<Node> {
    var r := Skipping(nodes, farm);
    if stale && nodes != [] && Gone(nodes[|nodes| - 1], farm) then DeleteNode(r, nodes[|nodes| - 1].Id()) else r
  }

  lemma {:induction false} SkippingIs(nodes: seq<Node>, farm: seq<NodeId>)
    requires UniqueIds(nodes)
    ensures UniqueIds(Skipping(nodes, farm))
    ensures forall n | n in Skipping(nodes, farm) :: n in nodes
    ensures forall n | n in nodes && !Gone(n, farm) :: n in Skipping(nodes, farm)
    decreases |nodes|
  {
    if nodes == [] || (Gone(nodes[0], farm) && |nodes| == 1) {
    } else {
      var k := if Gone(nodes[0], farm) then 2 else 1;
      SkippingIs(nodes[k..], farm);
      assert nodes == nodes[..k] + nodes[k..];
      forall n | n in nodes[k..] ensures n.Id() != nodes[k - 1].Id() {
        var j :| 0 <= j < |nodes[k..]| && nodes[k..][j] == n;
        assert nodes[k + j] == n;
      }
    }
  }

  /** A round drops no node of the farm, adds none, and keeps ids distinct. */
  lemma SweepIs(nodes: seq<Node>, farm: seq<NodeId>, stale: bool)
    requires UniqueIds(nodes)
    ensures UniqueIds(Sweep(nodes, farm, stale))
    ensures forall n | n in Sweep(nodes, farm, stale) :: n in nodes
    ensures forall n | n in nodes && !Gone(n, farm) :: n in Sweep(nodes, farm, stale)
  {
    SkippingIs(nodes, farm);
    if nodes != [] { DeleteUnique(Skipping(nodes, farm), nodes[|nodes| - 1].Id()); }
  }

  predicate NoneGone(nodes: seq<Node>, farm: seq<NodeId>) {
    forall n | n in nodes :: !Gone(n, farm)
  }

  /** Two vanished nodes stand next to each other among the first `k`. */
  predicate AdjacentGone(nodes: seq<Node>, farm: seq<NodeId>, k: int) {
    exists i | 0 <= i < k - 1 && k <= |nodes| :: GonePair(nodes, farm, i)
  }

  predicate GonePair(nodes: seq<Node>, farm: seq<NodeId>, i: int) {
    0 <= i < |nodes| - 1 && Gone(nodes[i], farm) && Gone(nodes[i + 1], farm)
  }

  /** None but the spared node is vanished. */
  predicate NoneGoneBut(nodes: seq<Node>, farm: seq<NodeId>, spared: Option<NodeId>) {
    forall n | n in nodes && Gone(n, farm) :: spared == Some(n.Id())
  }

  predicate PairBut(nodes: seq<Node>, farm: seq<NodeId>, spared: Option<NodeId>) {
    exists i | 0 <= i < |nodes| - 1 :: GonePair(nodes, farm, i) && spared != Some(nodes[i + 1].Id())
  }

  lemma {:induction false} SkippingCleanIff(nodes: seq<Node>, farm: seq<NodeId>, spared: Option<NodeId>)
    requires UniqueIds(nodes)
    requires nodes != [] && spared.Some? ==> spared.value == nodes[|nodes| - 1].Id()
    ensures NoneGoneBut(Skipping(nodes, farm), farm, spared) <==> !PairBut(nodes, farm, spared)
    decreases |nodes|
  {
    if |nodes| >= 2 {
      var k := if Gone(nodes[0], farm) then 2 else 1;
      SkippingCleanIff(nodes[k..], farm, spared);
      assert Skipping(nodes, farm) == [nodes[k - 1]] + Skipping(nodes[k..], farm);
      PairsOfRest(nodes, farm, spared, k);
    }
  }

  lemma PairsOfRest(nodes: seq<Node>, farm: seq<NodeId>, spared: Option<NodeId>, k: nat)
    requires |nodes| >= 2 && k == if Gone(nodes[0], farm) then 2 else 1
    requires nodes != [] && spared.Some? ==> spared.value == nodes[|nodes| - 1].Id()
    requires UniqueIds(nodes)
    ensures PairBut(nodes, farm, spared) <==>
              PairBut(nodes[k..], farm, spared) || (Gone(nodes[k - 1], farm) && spared != Some(nodes[k - 1].Id()))
  {
    var rest := nodes[k..];
    if i :| 0 <= i < |rest| - 1 && GonePair(rest, farm, i) && spared != Some(rest[i + 1].Id()) {
      assert rest[i] == nodes[i + k] && rest[i + 1] == nodes[i + k + 1];
      assert GonePair(nodes, farm, i + k);
    }
    if k == 2 && Gone(nodes[1], farm) { assert GonePair(nodes, farm, 0); }
    if i :| 0 <= i < |nodes| - 1 && GonePair(nodes, farm, i) && spared != Some(nodes[i + 1].Id()) && i >= k {
      assert rest[i - k] == nodes[i] && rest[i - k + 1] == nodes[i + 1];
      assert GonePair(rest, farm, i - k);
    }
  }

  /** A round drops every vanished node exactly when no two of them are neighbours in the
      list; where the old last place stays readable, a pair at the very end is dropped too. */
  lemma SweepCleanIff(nodes: seq<Node>, farm: seq<NodeId>, stale: bool)
    requires UniqueIds(nodes)
    ensures NoneGone(Sweep(nodes, farm, stale), farm) <==>
              !AdjacentGone(nodes, farm, if stale then |nodes| - 1 else |nodes|)
  {
    var r := Skipping(nodes, farm);
    SkippingIs(nodes, farm);
    if nodes != [] {
      var last := nodes[|nodes| - 1];
      var spared := if stale && Gone(last, farm) then Some(last.Id()) else None;
      SkippingCleanIff(nodes, farm, spared);
      DeleteUnique(r, last.Id());
      assert NoneGone(Sweep(nodes, farm, stale), farm) <==> NoneGoneBut(r, farm, spared);
      PairIsAdjacent(nodes, farm, stale, spared);
    }
  }

  function Bare(id: NodeId): Node { ZERO_NODE.(chain := ZERO_NODE.chain.(id := id)) }

  /** Of two vanished nodes in front of one of the farm the second stays; at the end of the
      list it depends on what the removal leaves in the place that is read last. */
  lemma NeighbourStays()
    ensures Sweep([Bare(1), Bare(2), Bare(3)], [3], true) == [Bare(2), Bare(3)]
    ensures Sweep([Bare(1), Bare(2)], [], false) == [Bare(2)] && Sweep([Bare(1), Bare(2)], [], true) == []
  {
    var a, b, c := Bare(1), Bare(2), Bare(3);
    assert [a, b, c][2..] == [c] && [c][1..] == [] && [a, b][2..] == [];
    assert Skipping([c], [3]) == [c];
    assert Skipping([a, b, c], [3]) == [b] + [c];
    assert Skipping([a, b], []) == [b];
  }

  lemma PairIsAdjacent(nodes: seq<Node>, farm: seq<NodeId>, stale: bool, spared: Option<NodeId>)
    requires UniqueIds(nodes) && nodes != []
    requires spared == if stale && Gone(nodes[|nodes| - 1], farm) then Some(nodes[|nodes| - 1].Id()) else None
    ensures PairBut(nodes, farm, spared) <==> AdjacentGone(nodes, farm, if stale then |nodes| - 1 else |nodes|)
  {
  }

  // ----- Steps and runs ---------------------------------------------------------------------

  /** What can happen to the bot. An operator's call is refused when the account cannot pay
      for it, and an operator who switches a node takes it out of the bot's hands. */
  datatype Event =
    | FindNode(o: Options, pick: nat, chainOk: bool)
    | OperatorOff(id: NodeId, paid: bool, answer: OffAnswer)
    | OperatorOn(id: NodeId, paid: bool, chainOk: bool)
    | Include(id: NodeId, view: View)
    | Round(farm: Option<seq<NodeId>>, stale: bool, answers: NodeId -> Answers, periodic: Time, reset: bool,
        chain: Chain)

  /** The nodes after a step, and those a power-off was sent for. */
  datatype Outcome = Outcome(nodes: seq<Node>, offs: set<NodeId>)

  function Operate(nodes: seq<Node>, e: Effect, id: NodeId): Outcome {
    Outcome(if e.ok then DeleteNode(e.nodes, id) else e.nodes, if e.sent then {id} else {})
  }

  predicate Includable(id: NodeId, cfg: Config) {
    id !in cfg.excluded && (cfg.excluded != [] || id in cfg.included)
  }

  function Included(nodes: seq<Node>, id: NodeId, v: View, cfg: Config, now: Time): seq<Node> {
    if IndexOf(nodes, id).Some? || !Includable(id, cfg) then nodes
    else
      match NewNode(id, v, cfg, now)
      case None => nodes
      case Some(n) => nodes + [n]
  }

  function Refresh(nodes: seq<Node>, farm: seq<NodeId>, stale: bool, answers: NodeId -> Answers, cfg: Config,
        c: Clock): seq<Node> {
    VisitAll(Sweep(nodes, farm, stale), Prioritise(cfg.priority, farm), answers, cfg, c).nodes
  }

  /** The nodes that a power-off was sent for. */
  function SentTo(issued: seq<Issued>): set<NodeId> {
    set i | i in issued && i.sent :: i.id
  }

  function Managing(nodes: seq<Node>, cfg: Config, now: Time, chain: Chain): Outcome {
    var m := Manage(nodes, now, cfg.thresholds, chain);
    Outcome(m.nodes, SentTo(m.issued))
  }

  predicate ProperEvent(nodes: seq<Node>, e: Event, cfg: Config) {
    e.FindNode? ==> ProperPick(nodes, cfg.farmIPs, e.o, cfg.overProvision, e.pick)
  }

  function Next(nodes: seq<Node>, e: Event, cfg: Config, now: Time): Outcome
    requires ProperEvent(nodes, e, cfg)
  {
    match e
    case FindNode(o, pick, chainOk) =>
      Outcome(Find(nodes, cfg.farmIPs, o, cfg.overProvision, now, pick, chainOk).nodes, {})
    case OperatorOff(id, paid, answer) =>
      if !paid then Outcome(nodes, {}) else Operate(nodes, PowerOff(nodes, id, now, answer), id)
    case OperatorOn(id, paid, chainOk) =>
      if !paid then Outcome(nodes, {})
      else Operate(nodes, PowerOn(nodes, id, now, chainOk), id).(offs := {})
    case Include(id, v) => Outcome(Included(nodes, id, v, cfg, now), {})
    case Round(farm, stale, answers, periodic, reset, chain) =>
      if farm.None? then Outcome(nodes, {})
      else Managing(Refresh(nodes, farm.value, stale, answers, cfg, Clock(now, periodic, reset)), cfg, now, chain)
  }

  // ----- A claim lasts ----------------------------------------------------------------------

  /** What is kept: at least `used` stays counted as used on the node until the timeout, or no
      node has the id. With neither, what follows speaks of distinct ids alone. */
  datatype Claim = NoClaim | Claim(id: NodeId, used: Capacity, until: Time) | Absent(id: NodeId)
  {
    predicate On(node: NodeId) { Claim? && id == node }

    predicate Stands(now: Time) { Claim? ==> now < until <= now + CLAIM_TIMEOUT }

    predicate Placed(nodes: seq<Node>) { Claim? ==> id != 0 && HasId(nodes, id) }

    /** A node with the id may come in. */
    predicate Admits(node: NodeId) { Absent? ==> id != node }
  }

  predicate Holds(n: Node, c: Claim) {
    c.Admits(n.Id()) && (c.On(n.Id()) ==> n.claimedUntil >= c.until && c.used.AtMost(n.used))
  }

  predicate AllHold(nodes: seq<Node>, c: Claim) {
    forall n | n in nodes :: Holds(n, c)
  }

  predicate SameIds(a: seq<Node>, b: seq<Node>) {
    |a| == |b| && forall j | 0 <= j < |a| :: a[j].Id() == b[j].Id()
  }

  /** Same nodes, same claims, distinct ids. */
  predicate Keeps(before: seq<Node>, after: seq<Node>, c: Claim) {
    UniqueIds(after) && SameIds(before, after) && AllHold(after, c)
  }

  lemma ReadChainKeeps(n: Node, v: View, cfg: Config, now: Time)
    ensures var r := ReadChain(n, v, cfg, now).node;
            r.chain == n.chain && r.used == n.used && r.claimedUntil == n.claimedUntil
  {
  }

  /** A refresh leaves claimed resources alone. */
  lemma UpdateKeepsClaim(n: Node, v: View, cfg: Config, now: Time)
    ensures var r := Update(n, v, cfg, now).node;
            && r.Id() == n.Id() && r.claimedUntil == n.claimedUntil
            && (n.HasClaim(now) ==> r.used == n.used)
  {
    if v.chain.Some? {
      ReadChainKeeps(n.(chain := v.chain.value.(id := n.Id()), neverShutDown := n.Id() in cfg.neverShutDown), v, cfg,
          now);
    }
  }

  lemma WriteKeeps(nodes: seq<Node>, n: Node, c: Claim)
    requires UniqueIds(nodes) && AllHold(nodes, c) && (HasId(nodes, n.Id()) ==> Holds(n, c))
    ensures Keeps(nodes, UpdateNode(nodes, n).nodes, c)
  {
  }

  lemma PowerKeeps(before: seq<Node>, after: seq<Node>, id: NodeId, c: Claim)
    requires UniqueIds(before) && AllHold(before, c) && SameButPower(before, after, id)
    ensures Keeps(before, after, c)
  {
    forall j | 0 <= j < |before| ensures after[j].Id() == before[j].Id() && Holds(after[j], c) {
      assert Holds(before[j], c);
    }
  }

  lemma PowerOnKeeps(nodes: seq<Node>, id: NodeId, now: Time, chainOk: bool, c: Claim)
    requires UniqueIds(nodes) && AllHold(nodes, c)
    ensures Keeps(nodes, PowerOn(nodes, id, now, chainOk).nodes, c)
  {
    PowerOnKeepsTheRest(nodes, id, now, chainOk);
    PowerKeeps(nodes, PowerOn(nodes, id, now, chainOk).nodes, id, c);
  }

  /** A power-off is not sent for a claimed node. */
  lemma PowerOffKeeps(nodes: seq<Node>, id: NodeId, now: Time, answer: OffAnswer, c: Claim)
    requires UniqueIds(nodes) && AllHold(nodes, c) && c.Stands(now)
    ensures Keeps(nodes, PowerOff(nodes, id, now, answer).nodes, c)
    ensures c.On(id) ==> !PowerOff(nodes, id, now, answer).sent
  {
    PowerOffKeepsTheRest(nodes, id, now, answer);
    PowerKeeps(nodes, PowerOff(nodes, id, now, answer).nodes, id, c);
    if c.On(id) && IndexOf(nodes, id).Some? {
      assert Holds(nodes[IndexOf(nodes, id).value], c);
    }
  }

  lemma ShouldWakeKeeps(n: Node, a: Answers, calls: nat, cfg: Config, k: Clock, c: Claim)
    requires Holds(n, c)
    ensures Holds(ShouldWake(n, a, calls, cfg, k).node, c) && ShouldWake(n, a, calls, cfg, k).node.Id() == n.Id()
  {
  }

  lemma WakeUpKeeps(nodes: seq<Node>, n: Node, a: Answers, calls: nat, cfg: Config, k: Clock, c: Claim)
    requires UniqueIds(nodes) && AllHold(nodes, c) && Holds(n, c)
    ensures Keeps(nodes, WakeUp(nodes, n, a, calls, cfg, k).nodes, c)
  {
    ShouldWakeKeeps(n, a, calls, cfg, k, c);
    var w := ShouldWake(n, a, calls, cfg, k).node;
    WriteKeeps(nodes, w, c);
    PowerOnKeeps(UpdateNode(nodes, w).nodes, n.Id(), k.now, a.second, c);
  }

  lemma FinishVisitKeeps(nodes: seq<Node>, n: Node, a: Answers, calls: nat, cfg: Config, k: Clock, c: Claim)
    requires UniqueIds(nodes) && AllHold(nodes, c) && Holds(n, c)
    ensures Keeps(nodes, FinishVisit(nodes, n, a, calls, cfg, k).nodes, c)
  {
    PowerOnKeeps(nodes, n.Id(), k.now, a.first, c);
    var on :=
      if n.power == Off && (n.neverShutDown || n.rented) then PowerOn(nodes, n.Id(), k.now, a.first).nodes else nodes;
    if k.reset {
      var kept := n.(randomWakeUps := 0);
      WriteKeeps(on, kept, c);
      WakeUpKeeps(UpdateNode(on, kept).nodes, kept, a, calls, cfg, k, c);
    } else {
      WakeUpKeeps(on, n, a, calls, cfg, k, c);
    }
  }

  lemma NewNodeHasId(id: NodeId, v: View, cfg: Config, now: Time)
    ensures NewNode(id, v, cfg, now).Some? ==> NewNode(id, v, cfg, now).value.Id() == id
  {
  }

  /** The ids stay, perhaps with others after them. */
  predicate Extends(before: seq<Node>, after: seq<Node>) {
    |before| <= |after| && forall j | 0 <= j < |before| :: after[j].Id() == before[j].Id()
  }

  lemma AppendKeeps(nodes: seq<Node>, n: Node, c: Claim)
    requires UniqueIds(nodes) && AllHold(nodes, c) && !c.On(n.Id()) && IndexOf(nodes, n.Id()).None?
    requires c.Admits(n.Id())
    ensures UniqueIds(nodes + [n]) && AllHold(nodes + [n], c)
  {
  }

  lemma AddOrUpdateKeeps(nodes: seq<Node>, id: NodeId, v: View, cfg: Config, now: Time, c: Claim)
    requires UniqueIds(nodes) && AllHold(nodes, c) && c.Stands(now)
    requires c.Admits(id) && (c.On(id) ==> HasId(nodes, id))
    ensures var after := AddOrUpdate(nodes, id, v, cfg, now).nodes;
            UniqueIds(after) && AllHold(after, c) && Extends(nodes, after)
  {
    match IndexOf(nodes, id) {
      case Some(i) =>
        assert Holds(nodes[i], c);
        UpdateKeepsClaim(nodes[i], v, cfg, now);
        WriteKeeps(nodes, Update(nodes[i], v, cfg, now).node, c);
      case None =>
        NewNodeHasId(id, v, cfg, now);
        var n := NewNode(id, v, cfg, now);
        if n.Some? { AppendKeeps(nodes, n.value, c); }
    }
  }

  lemma VisitKeeps(nodes: seq<Node>, id: NodeId, a: Answers, calls: nat, cfg: Config, k: Clock, c: Claim)
    requires UniqueIds(nodes) && AllHold(nodes, c) && c.Stands(k.now) && !c.On(0)
    requires c.Admits(id) && (c.On(id) ==> HasId(nodes, id))
    ensures var after := Visit(nodes, id, a, calls, cfg, k).nodes;
            UniqueIds(after) && AllHold(after, c) && Extends(nodes, after)
  {
    AddOrUpdateKeeps(nodes, id, a.view, cfg, k.now, c);
    var w := AddOrUpdate(nodes, id, a.view, cfg, k.now).nodes;
    match IndexOf(w, id) {
      case None =>
        if j :| 0 <= j < |w| && w[j].Id() == ZERO_NODE.Id() { assert Holds(w[j], c); }
        WriteKeeps(w, ZERO_NODE, c);
      case Some(i) => FinishVisitKeeps(w, w[i], a, calls, cfg, k, c);
    }
  }

  lemma {:induction false} VisitAllKeeps(nodes: seq<Node>, ids: seq<NodeId>, answers: NodeId -> Answers, cfg: Config,
        k: Clock, c: Claim)
    requires UniqueIds(nodes) && AllHold(nodes, c) && c.Stands(k.now) && !c.On(0)
    requires forall i | i in ids :: c.Admits(i) && (c.On(i) ==> HasId(nodes, i))
    ensures var after := VisitAll(nodes, ids, answers, cfg, k).nodes;
            UniqueIds(after) && AllHold(after, c) && Extends(nodes, after)
    decreases |ids|
  {
    if ids != [] {
      var m := |ids| - 1;
      VisitAllKeeps(nodes, ids[..m], answers, cfg, k, c);
      var v := VisitAll(nodes, ids[..m], answers, cfg, k);
      if c.On(ids[m]) { ExtendsHasId(nodes, v.nodes, ids[m]); }
      if Managed(ids[m], cfg) { VisitKeeps(v.nodes, ids[m], answers(ids[m]), v.calls, cfg, k, c); }
    }
  }

  lemma ExtendsHasId(before: seq<Node>, after: seq<Node>, id: NodeId)
    requires Extends(before, after) && HasId(before, id)
    ensures HasId(after, id)
  {
  }

  lemma {:induction false} PowerOnAllKeeps(nodes: seq<Node>, ids: seq<NodeId>, now: Time, chain: NodeId -> bool,
        c: Claim)
    requires UniqueIds(nodes) && AllHold(nodes, c)
    ensures Keeps(nodes, PowerOnAll(nodes, ids, now, chain), c)
    decreases |ids|
  {
    if ids != [] {
      var k := |ids| - 1;
      PowerOnAllKeeps(nodes, ids[..k], now, chain, c);
      PowerOnKeeps(PowerOnAll(nodes, ids[..k], now, chain), ids[k], now, chain(ids[k]), c);
    }
  }

  lemma {:induction false} ConsiderAllKeeps(s: Shrink, candidates: seq<Node>, now: Time, t: Thresholds,
        answers: NodeId -> OffAnswer, c: Claim)
    requires UniqueIds(s.nodes) && AllHold(s.nodes, c) && c.Stands(now)
    requires forall i | i in s.issued :: c.On(i.id) ==> !i.sent
    ensures var r := ConsiderAll(s, candidates, now, t, answers);
            Keeps(s.nodes, r.nodes, c) && forall i | i in r.issued :: c.On(i.id) ==> !i.sent
    decreases |candidates|
  {
    if candidates != [] {
      var k := |candidates| - 1;
      ConsiderAllKeeps(s, candidates[..k], now, t, answers, c);
      var r, n := ConsiderAll(s, candidates[..k], now, t, answers), candidates[k];
      PowerOffKeeps(r.nodes, n.Id(), now, answers(n.Id()), c);
    }
  }

  lemma ManageKeeps(nodes: seq<Node>, cfg: Config, now: Time, chain: Chain, c: Claim)
    requires UniqueIds(nodes) && AllHold(nodes, c) && c.Stands(now)
    ensures var r := Managing(nodes, cfg, now, chain);
            Keeps(nodes, r.nodes, c) && forall i | i in r.offs :: !c.On(i)
  {
    var t := cfg.thresholds;
    PowerOnAllKeeps(nodes, Select(nodes, OnlineDemand(nodes, t)).chosen, now, chain.turnsOn, c);
    ConsiderAllKeeps(StartShrink(nodes), Candidates(nodes, now), now, t, chain.turnsOff, c);
  }

  /** A round either drops the claimed node for good or keeps its claim; it does not add it
      back. */
  lemma RefreshKeeps(nodes: seq<Node>, farm: seq<NodeId>, stale: bool, answers: NodeId -> Answers, cfg: Config,
        k: Clock, c: Claim)
    requires UniqueIds(nodes) && AllHold(nodes, c) && c.Placed(nodes) && c.Stands(k.now)
    requires forall i | i in farm :: c.Admits(i)
    ensures var after := Refresh(nodes, farm, stale, answers, cfg, k);
            UniqueIds(after) && AllHold(after, c)
  {
    var swept := Sweep(nodes, farm, stale);
    SweepIs(nodes, farm, stale);
    PrioritiseIs(cfg.priority, farm);
    if c.Claim? && c.id in farm {
      var j :| 0 <= j < |nodes| && nodes[j].Id() == c.id;
      assert nodes[j] in nodes && !Gone(nodes[j], farm);
    }
    VisitAllKeeps(swept, Prioritise(cfg.priority, farm), answers, cfg, k, c);
  }

  /** The claim a find leaves: what was used and what was asked for, for half an hour. */
  lemma FindClaims(nodes: seq<Node>, o: Options, pick: nat, chainOk: bool, cfg: Config, now: Time)
    requires UniqueIds(nodes) && ProperEvent(nodes, FindNode(o, pick, chainOk), cfg)
    ensures var f := Find(nodes, cfg.farmIPs, o, cfg.overProvision, now, pick, chainOk);
            && UniqueIds(f.nodes)
            && (f.node.Some? ==>
                && pick < |nodes| && nodes[pick].Id() == f.node.value && HasId(f.nodes, f.node.value)
                && AllHold(f.nodes,
                    Claim(f.node.value, nodes[pick].used.Plus(ClaimOf(nodes[pick], o)), now + CLAIM_TIMEOUT)))
  {
    FindIs(nodes, cfg.farmIPs, o, cfg.overProvision, now, pick, chainOk);
    var f := Find(nodes, cfg.farmIPs, o, cfg.overProvision, now, pick, chainOk);
    if f.node.Some? { assert f.nodes[pick].Id() == f.node.value; }
  }

  lemma FindKeeps(nodes: seq<Node>, o: Options, pick: nat, chainOk: bool, cfg: Config, now: Time, c: Claim)
    requires UniqueIds(nodes) && AllHold(nodes, c) && ProperEvent(nodes, FindNode(o, pick, chainOk), cfg)
    requires c.Stands(now)
    ensures Keeps(nodes, Find(nodes, cfg.farmIPs, o, cfg.overProvision, now, pick, chainOk).nodes, c)
  {
    FindIs(nodes, cfg.farmIPs, o, cfg.overProvision, now, pick, chainOk);
    var f := Find(nodes, cfg.farmIPs, o, cfg.overProvision, now, pick, chainOk);
    if f.node.Some? { assert Holds(nodes[pick], c); }
  }

  /** Whatever a power call kept is still kept when the node then goes. */
  lemma OperateKeeps(nodes: seq<Node>, e: Effect, id: NodeId, c: Claim)
    requires Keeps(nodes, e.nodes, c)
    ensures UniqueIds(Operate(nodes, e, id).nodes) && AllHold(Operate(nodes, e, id).nodes, c)
  {
  }

  /** The step kept the claim and sent the claimed node no power-off. */
  predicate Safe(r: Outcome, c: Claim) {
    UniqueIds(r.nodes) && AllHold(r.nodes, c) && forall i | i in r.offs :: !c.On(i)
  }

  lemma IncludedKeeps(nodes: seq<Node>, id: NodeId, v: View, cfg: Config, now: Time, c: Claim)
    requires UniqueIds(nodes) && AllHold(nodes, c) && c.Placed(nodes) && c.Admits(id)
    ensures UniqueIds(Included(nodes, id, v, cfg, now)) && AllHold(Included(nodes, id, v, cfg, now), c)
  {
  }

  /** A step can bring in no node but the one it includes and those of the farm. */
  predicate Admitted(e: Event, c: Claim) {
    match e
    case Include(id, _) => c.Admits(id)
    case Round(Some(farm), _, _, _, _, _) => forall id | id in farm :: c.Admits(id)
    case _ => true
  }

  lemma RoundKeeps(nodes: seq<Node>, e: Event, cfg: Config, now: Time, c: Claim)
    requires UniqueIds(nodes) && AllHold(nodes, c) && c.Placed(nodes) && c.Stands(now)
    requires e.Round? && e.farm.Some? && Admitted(e, c)
    ensures Safe(Next(nodes, e, cfg, now), c)
  {
    var k := Clock(now, e.periodic, e.reset);
    RefreshKeeps(nodes, e.farm.value, e.stale, e.answers, cfg, k, c);
    ManageKeeps(Refresh(nodes, e.farm.value, e.stale, e.answers, cfg, k), cfg, now, e.chain, c);
  }

  lemma OperatorKeeps(nodes: seq<Node>, e: Event, cfg: Config, now: Time, c: Claim)
    requires UniqueIds(nodes) && AllHold(nodes, c) && c.Stands(now) && (e.OperatorOff? || e.OperatorOn?)
    ensures Safe(Next(nodes, e, cfg, now), c)
  {
    if e.OperatorOff? {
      PowerOffKeeps(nodes, e.id, now, e.answer, c);
      OperateKeeps(nodes, PowerOff(nodes, e.id, now, e.answer), e.id, c);
    } else {
      PowerOnKeeps(nodes, e.id, now, e.chainOk, c);
      OperateKeeps(nodes, PowerOn(nodes, e.id, now, e.chainOk), e.id, c);
    }
  }

  /** No step before its timeout breaks a claim or sends its node a power-off: either the
      step drops the node, or the claim stands. */
  lemma StepKeepsClaim(nodes: seq<Node>, e: Event, cfg: Config, now: Time, c: Claim)
    requires UniqueIds(nodes) && ProperEvent(nodes, e, cfg)
    requires c.Placed(nodes) && AllHold(nodes, c) && c.Stands(now) && Admitted(e, c)
    ensures Safe(Next(nodes, e, cfg, now), c)
  {
    if e.FindNode? {
      FindKeeps(nodes, e.o, e.pick, e.chainOk, cfg, now, c);
    } else if e.Include? {
      IncludedKeeps(nodes, e.id, e.view, cfg, now, c);
    } else if e.Round? && e.farm.Some? {
      RoundKeeps(nodes, e, cfg, now, c);
    } else if !e.Round? {
      OperatorKeeps(nodes, e, cfg, now, c);
    }
  }

  /** Every step keeps the ids distinct. */
  lemma StepKeepsIds(nodes: seq<Node>, e: Event, cfg: Config, now: Time)
    requires UniqueIds(nodes) && ProperEvent(nodes, e, cfg)
    ensures UniqueIds(Next(nodes, e, cfg, now).nodes)
  {
    StepKeepsClaim(nodes, e, cfg, now, NoClaim);
  }

  /** No step brings in a node that the operator does not include and the farm does not have;
      in particular the id 0, which stands for no node, stays out of the list. */
  lemma StepKeepsAbsent(nodes: seq<Node>, e: Event, cfg: Config, now: Time, id: NodeId)
    requires UniqueIds(nodes) && ProperEvent(nodes, e, cfg) && !HasId(nodes, id)
    requires e.Include? ==> e.id != id
    requires e.Round? && e.farm.Some? ==> id !in e.farm.value
    ensures !HasId(Next(nodes, e, cfg, now).nodes, id)
  {
    forall n | n in nodes ensures Holds(n, Absent(id)) {
      var i :| 0 <= i < |nodes| && nodes[i] == n;
    }
    StepKeepsClaim(nodes, e, cfg, now, Absent(id));
    var after := Next(nodes, e, cfg, now).nodes;
    forall i | 0 <= i < |after| ensures after[i].Id() != id { assert Holds(after[i], Absent(id)); }
  }

  datatype Timed = Timed(now: Time, event: Event)

  /** Each find of a run picks properly, and the node is there all along. */
  predicate GoodRun(nodes: seq<Node>, run: seq<Timed>, cfg: Config, id: NodeId)
    decreases |run|
  {
    HasId(nodes, id) &&
    (run == [] || (
       && ProperEvent(nodes, run[0].event, cfg)
       && GoodRun(Next(nodes, run[0].event, cfg, run[0].now).nodes, run[1..], cfg, id)))
  }

  /** The nodes after a run, and those a power-off was sent for in any of its steps. */
  function After(nodes: seq<Node>, run: seq<Timed>, cfg: Config, id: NodeId): Outcome
    requires GoodRun(nodes, run, cfg, id)
    decreases |run|
  {
    if run == [] then Outcome(nodes, {})
    else
      var r := Next(nodes, run[0].event, cfg, run[0].now);
      var rest := After(r.nodes, run[1..], cfg, id);
      rest.(offs := r.offs + rest.offs)
  }

  lemma {:induction false} RunKeepsClaim(nodes: seq<Node>, run: seq<Timed>, cfg: Config, c: Claim)
    requires UniqueIds(nodes) && c.Claim? && c.id != 0 && AllHold(nodes, c) && GoodRun(nodes, run, cfg, c.id)
    requires forall s | s in run :: c.Stands(s.now)
    ensures var r := After(nodes, run, cfg, c.id);
            UniqueIds(r.nodes) && HasId(r.nodes, c.id) && AllHold(r.nodes, c) && c.id !in r.offs
    decreases |run|
  {
    if run != [] {
      StepKeepsClaim(nodes, run[0].event, cfg, run[0].now, c);
      RunKeepsClaim(Next(nodes, run[0].event, cfg, run[0].now).nodes, run[1..], cfg, c);
    }
  }

  /** From the moment a find returns a node until half an hour later, through any steps that
      do not drop it, the node's use stays at least what it was plus the claim, and the bot
      sends it no power-off. */
  lemma FoundNodeStaysClaimed(nodes: seq<Node>, o: Options, pick: nat, chainOk: bool, cfg: Config, found: Time,
        run: seq<Timed>)
    requires UniqueIds(nodes) && ProperEvent(nodes, FindNode(o, pick, chainOk), cfg)
    requires Find(nodes, cfg.farmIPs, o, cfg.overProvision, found, pick, chainOk).node.Some? && pick < |nodes|
        && nodes[pick].Id() != 0
    requires var f := Find(nodes, cfg.farmIPs, o, cfg.overProvision, found, pick, chainOk);
             GoodRun(f.nodes, run, cfg, nodes[pick].Id())
    requires forall s | s in run :: found <= s.now < found + CLAIM_TIMEOUT
    ensures var f := Find(nodes, cfg.farmIPs, o, cfg.overProvision, found, pick, chainOk);
            var r := After(f.nodes, run, cfg, nodes[pick].Id());
            && f.node == Some(nodes[pick].Id()) && f.node.value !in r.offs
            && HasId(r.nodes, f.node.value)
            && forall n | n in r.nodes && n.Id() == f.node.value ::
                 nodes[pick].used.Plus(ClaimOf(nodes[pick], o)).AtMost(n.used)
                     && n.claimedUntil >= found + CLAIM_TIMEOUT
  {
    FindClaims(nodes, o, pick, chainOk, cfg, found);
    var f := Find(nodes, cfg.farmIPs, o, cfg.overProvision, found, pick, chainOk);
    var c := Claim(f.node.value, nodes[pick].used.Plus(ClaimOf(nodes[pick], o)), found + CLAIM_TIMEOUT);
    RunKeepsClaim(f.nodes, run, cfg, c);
    var r := After(f.nodes, run, cfg, c.id);
    forall n | n in r.nodes && n.Id() == c.id ensures c.used.AtMost(n.used) && n.claimedUntil >= c.until {
      assert Holds(n, c);
    }
  }
}
