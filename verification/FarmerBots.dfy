/** The bot itself: a list of nodes that its calls read and overwrite in place. Every call is
    proved to do to the list what the functions of the other farm modules say. Answers of the
    chain, the proxy and the nodes, and the clock, are arguments. */
module FarmerBots {
  import opened Wrappers
  import opened Sequences
  import opened FarmTypes
  import opened FarmState
  import opened FarmGpus
  import opened FarmPower
  import opened FarmFind
  import opened FarmRuns

  const DEFAULT_THRESHOLD: real := 80.0
  const MIN_THRESHOLD: real := 50.0
  const MAX_THRESHOLD: real := 80.0

  /** The threshold used for a configured one. */
  function Clamped(t: real): real {
    if t == 0.0 then DEFAULT_THRESHOLD
    else if t < MIN_THRESHOLD then MIN_THRESHOLD
    else if t > MAX_THRESHOLD then MAX_THRESHOLD
    else t
  }

  predicate ValidThreshold(t: real) { t == 0.0 || 1.0 <= t <= 100.0 }

  function Distance(x: real, y: real): real { if x < y then y - x else x - y }

  /** Zero stands for 80; any other threshold is brought to the nearest one from 50 to 80. */
  lemma ClampedIsNearest(t: real, other: real)
    requires 50.0 <= other <= 80.0
    ensures 50.0 <= Clamped(t) <= 80.0
    ensures if t == 0.0 then Clamped(t) == 80.0 else Distance(t, Clamped(t)) <= Distance(t, other)
  {
  }

  // ----- Filters and sums ----------------------------------------------------------------

  method CalculateUsage(nodes: seq<Node>) returns (used: Capacity, total: Capacity)
    ensures used == UsedSum(nodes, {}) && total == TotalSum(nodes, {})
  {
    used, total := NOTHING, NOTHING;
    for k := 0 to |nodes|
      invariant used == UsedSum(nodes[..k], {}) && total == TotalSum(nodes[..k], {})
    {
      TakeNext(nodes, k);
      used := used.Plus(if nodes[k].rented then nodes[k].total else nodes[k].used);
      total := total.Plus(nodes[k].total);
    }
    assert nodes[..|nodes|] == nodes;
  }

  /** A loop that has stopped changes nothing any more. */
  lemma {:induction false} StopsForGood(s: Shrink, cs: seq<Node>, k: nat, now: Time, t: Thresholds,
        answers: NodeId -> OffAnswer)
    requires k <= |cs|
    ensures ConsiderAll(s, cs[..k], now, t, answers).stopped ==>
              ConsiderAll(s, cs, now, t, answers) == ConsiderAll(s, cs[..k], now, t, answers)
    decreases |cs| - k
  {
    if k == |cs| {
      assert cs[..k] == cs;
    } else {
      TakeNext(cs, k);
      StopsForGood(s, cs, k + 1, now, t, answers);
    }
  }

  lemma SelectNext(nodes: seq<Node>, k: nat, demand: Capacity)
    requires k < |nodes|
    ensures var n := nodes[k];
            var rest := Cover(demand, n.chain.resources);
            var s := Select(nodes[k + 1..], if n.power == Off then rest else demand);
            Select(nodes[k..], demand) ==
              if n.power != Off then s
              else
                var mine := if rest != demand then [n.Id()] else [];
                if rest.IsEmpty() then Selection(mine, rest) else s.(chosen := mine + s.chosen)
  {
  }

  method FilterGpus(n: Node, o: Options) returns (r: seq<Gpu>)
    ensures r == MatchingGpus(n, o)
  {
    r := n.gpus;
    if o.vendors != [] { r := FilterByVendors(r, o.vendors); }
    if o.devices != [] { r := FilterByDevices(r, o.devices); }
  }

  method AddPriority(priority: seq<NodeId>, farm: seq<NodeId>) returns (r: seq<NodeId>)
    ensures r == Prioritise(priority, farm)
  {
    r := [];
    for i := 0 to |priority|
      invariant r == Fresh([], priority[..i], farm)
    {
      TakeNext(priority, i);
      if priority[i] in farm && priority[i] !in r { r := r + [priority[i]]; }
    }
    assert priority[..|priority|] == priority;
    ghost var first := r;
    for i := 0 to |farm|
      invariant r == Fresh(first, farm[..i], farm)
    {
      TakeNext(farm, i);
      if farm[i] !in r { r := r + [farm[i]]; }
    }
    assert farm[..|farm|] == farm;
  }

  /** The candidates of a find, and where each of them stands in the list. */
  ghost predicate AreCandidates(nodes: seq<Node>, possible: seq<Node>, o: Options, overProvision: nat, k: nat) {
    && (forall n | n in possible :: Suits(n, o, overProvision) && n in nodes)
    && (forall j | 0 <= j < k <= |nodes| && Suits(nodes[j], o, overProvision) :: nodes[j] in possible)
  }

  /** Among any nodes one has a power state that no other precedes. */
  lemma {:induction false} SomeFirst(possible: seq<Node>) returns (i: nat)
    requires possible != []
    ensures IsFirst(possible, i)
    decreases |possible|
  {
    var k := |possible| - 1;
    i := k;
    if k > 0 {
      var j := SomeFirst(possible[..k]);
      if possible[j].power.Rank() < possible[k].power.Rank() { i := j; }
      forall m | 0 <= m < k ensures possible[j].power.Rank() <= possible[m].power.Rank() {
        assert possible[..k][m] == possible[m];
      }
    }
  }

  lemma NextRound(nodes: seq<Node>, farm: seq<NodeId>, stale: bool, answers: NodeId -> Answers, cfg: Config, c: Clock,
        chain: Chain)
    ensures Next(nodes, Round(Some(farm), stale, answers, c.periodic, c.reset, chain), cfg, c.now)
         == Managing(Refresh(nodes, farm, stale, answers, cfg, c), cfg, c.now, chain)
  {
  }

  /** What may come first when the nodes are sorted by their power state. */
  predicate IsFirst(possible: seq<Node>, i: int) {
    0 <= i < |possible| && forall j | 0 <= j < |possible| :: possible[i].power.Rank() <= possible[j].power.Rank()
  }

  lemma FirstIsPick(nodes: seq<Node>, possible: seq<Node>, i: nat, o: Options, overProvision: nat) returns (pick: nat)
    requires AreCandidates(nodes, possible, o, overProvision, |nodes|) && IsFirst(possible, i)
    ensures IsPick(nodes, o, overProvision, pick) && nodes[pick] == possible[i]
  {
    assert possible[i] in possible;
    pick :| 0 <= pick < |nodes| && nodes[pick] == possible[i];
    forall j | 0 <= j < |nodes| && Suits(nodes[j], o, overProvision)
      ensures nodes[pick].power.Rank() <= nodes[j].power.Rank()
    {
      var k :| 0 <= k < |possible| && possible[k] == nodes[j];
    }
  }

  /** The array behind a list one element was removed from. */
  function Shifted(nodes: seq<Node>, behind: seq<Node>, stale: bool): seq<Node>
    requires |nodes| < |behind|
  {
    nodes + [if stale then behind[|nodes|] else ZERO_NODE] + behind[|nodes| + 1..]
  }

  /** The array begins with the list; beyond it only the old last node, or nothing, shows. */
  ghost predicate Behind(was: seq<Node>, nodes: seq<Node>, behind: seq<Node>, stale: bool) {
    && |behind| == |was| && nodes <= behind
    && forall j | |nodes| <= j < |was| :: behind[j] == if stale then was[|was| - 1] else ZERO_NODE
  }

  lemma ShiftedIsBehind(was: seq<Node>, nodes: seq<Node>, rest: seq<Node>, behind: seq<Node>, stale: bool)
    requires Behind(was, nodes, behind, stale) && |rest| + 1 == |nodes| && nodes[|rest|] == was[|was| - 1]
    ensures Behind(was, rest, Shifted(rest, behind, stale), stale)
  {
  }

  /** Place `k` is next: either the list still has places to come, or all that the loop drops
      is dropped. */
  ghost predicate Progress(was: seq<Node>, nodes: seq<Node>, farm: seq<NodeId>, stale: bool, k: nat) {
    if k <= |nodes| then
      && nodes[..k] + Skipping(nodes[k..], farm) == Skipping(was, farm)
      && (was != [] ==> nodes != [] && nodes[|nodes| - 1] == was[|was| - 1])
      && (|nodes| == |was| ==> nodes == was && forall j | 0 <= j < k :: !Gone(nodes[j], farm))
    else nodes == Sweep(was, farm, stale) && |nodes| < |was|
  }

  lemma RemoveAt(nodes: seq<Node>, k: nat)
    requires UniqueIds(nodes) && k < |nodes|
    ensures DeleteNode(nodes, nodes[k].Id()) == nodes[..k] + nodes[k + 1..]
    ensures UniqueIds(nodes[..k] + nodes[k + 1..])
    ensures IndexOf(nodes[..k] + nodes[k + 1..], nodes[k].Id()).None?
    ensures IndexOf(nodes, 0).None? ==> IndexOf(nodes[..k] + nodes[k + 1..], 0).None?
  {
  }

  lemma RemoveAbsent(nodes: seq<Node>, id: NodeId)
    requires forall j | 0 <= j < |nodes| :: nodes[j].Id() != id
    ensures DeleteNode(nodes, id) == nodes
  {
  }

  /** The element goes and the next one takes its place unseen. */
  lemma ProgressGone(was: seq<Node>, nodes: seq<Node>, farm: seq<NodeId>, stale: bool, k: nat)
    requires |nodes| <= |was| && k + 1 < |nodes|
    requires Progress(was, nodes, farm, stale, k) && Gone(nodes[k], farm)
    ensures Progress(was, nodes[..k] + nodes[k + 1..], farm, stale, k + 1)
  {
    DropAt(nodes, k);
    assert nodes[k..][2..] == nodes[k + 2..];
  }

  /** The last element goes. */
  lemma ProgressLastGone(was: seq<Node>, nodes: seq<Node>, farm: seq<NodeId>, stale: bool)
    requires UniqueIds(nodes) && 0 < |nodes| <= |was|
    requires Progress(was, nodes, farm, stale, |nodes| - 1) && Gone(nodes[|nodes| - 1], farm)
    ensures Progress(was, nodes[..|nodes| - 1], farm, stale, |nodes|)
  {
  }

  lemma ProgressEnds(was: seq<Node>, nodes: seq<Node>, farm: seq<NodeId>, stale: bool)
    requires UniqueIds(nodes) && |nodes| <= |was|
    requires Progress(was, nodes, farm, stale, |nodes|)
    ensures nodes == Skipping(was, farm)
    ensures was != [] && stale && Gone(was[|was| - 1], farm)
        ==> DeleteNode(nodes, was[|was| - 1].Id()) == Sweep(was, farm, stale)
    ensures |nodes| == |was| ==> nodes == Sweep(was, farm, stale)
  {
  }

  /** Beyond the list the loop comes to see the old last node, if anything. */
  lemma ProgressBeyond(was: seq<Node>, nodes: seq<Node>, farm: seq<NodeId>, stale: bool, k: nat, node: Node)
    requires UniqueIds(was) && UniqueIds(nodes) && IndexOf(nodes, 0).None? && |nodes| <= k < |was|
    requires Progress(was, nodes, farm, stale, k) && node == if stale then was[|was| - 1] else ZERO_NODE
    ensures Progress(was, if Gone(node, farm) then DeleteNode(nodes, node.Id()) else nodes, farm, stale, k + 1)
  {
    SkippingIs(was, farm);
    DeleteUnique(Skipping(was, farm), was[|was| - 1].Id());
    if k == |nodes| {
      ProgressEnds(was, nodes, farm, stale);
    } else if stale && Gone(node, farm) {
      assert IndexOf(nodes, node.Id()).None?;
    }
  }

  /** The list and the array behind it when place `k` is next. */
  ghost predicate Sweeping(was: seq<Node>, nodes: seq<Node>, behind: seq<Node>, farm: seq<NodeId>, stale: bool,
        k: nat) {
    && UniqueIds(nodes) && IndexOf(nodes, 0).None?
    && Behind(was, nodes, behind, stale) && Progress(was, nodes, farm, stale, k)
  }

  lemma TurnWithin(was: seq<Node>, nodes: seq<Node>, behind: seq<Node>, farm: seq<NodeId>, stale: bool, k: nat)
    requires Sweeping(was, nodes, behind, farm, stale, k) && k < |nodes| && Gone(nodes[k], farm)
    ensures var rest := DeleteNode(nodes, nodes[k].Id());
            |rest| < |nodes| <= |behind| && Sweeping(was, rest, Shifted(rest, behind, stale), farm, stale, k + 1)
  {
    RemoveAt(nodes, k);
    var rest := nodes[..k] + nodes[k + 1..];
    if k + 1 < |nodes| {
      ProgressGone(was, nodes, farm, stale, k);
      DropAt(nodes, k);
    } else {
      ProgressLastGone(was, nodes, farm, stale);
      assert rest == nodes[..k];
    }
    ShiftedIsBehind(was, nodes, rest, behind, stale);
  }

  lemma TurnBeyond(was: seq<Node>, nodes: seq<Node>, behind: seq<Node>, farm: seq<NodeId>, stale: bool, k: nat)
    requires Sweeping(was, nodes, behind, farm, stale, k) && UniqueIds(was) && |nodes| <= k < |was|
    ensures var rest := if Gone(behind[k], farm) then DeleteNode(nodes, behind[k].Id()) else nodes;
            && |rest| <= |nodes|
            && Sweeping(was, rest, if |rest| < |nodes| then Shifted(rest, behind, stale) else behind,
                 farm, stale, k + 1)
  {
    ProgressBeyond(was, nodes, farm, stale, k, behind[k]);
    if !stale || (k > |nodes| && Gone(behind[k], farm)) {
      RemoveAbsent(nodes, behind[k].Id());
    } else if k == |nodes| {
      RemoveAt(nodes, |nodes| - 1);
      assert nodes[..|nodes| - 1] + nodes[|nodes|..] == nodes[..|nodes| - 1];
      ShiftedIsBehind(was, nodes, nodes[..|nodes| - 1], behind, stale);
    }
  }

  lemma TurnKept(was: seq<Node>, nodes: seq<Node>, behind: seq<Node>, farm: seq<NodeId>, stale: bool, k: nat)
    requires Sweeping(was, nodes, behind, farm, stale, k) && k < |nodes| && !Gone(nodes[k], farm)
    ensures Sweeping(was, nodes, behind, farm, stale, k + 1)
  {
  }

  lemma Turn(was: seq<Node>, nodes: seq<Node>, behind: seq<Node>, farm: seq<NodeId>, stale: bool, k: nat)
    requires Sweeping(was, nodes, behind, farm, stale, k) && UniqueIds(was) && k < |was|
    ensures var rest := if Gone(behind[k], farm) then DeleteNode(nodes, behind[k].Id()) else nodes;
            && |rest| <= |nodes|
            && Sweeping(was, rest, if |rest| < |nodes| then Shifted(rest, behind, stale) else behind,
                 farm, stale, k + 1)
  {
    if k >= |nodes| {
      TurnBeyond(was, nodes, behind, farm, stale, k);
    } else if Gone(nodes[k], farm) {
      TurnWithin(was, nodes, behind, farm, stale, k);
    } else {
      TurnKept(was, nodes, behind, farm, stale, k);
    }
  }

  lemma SweepStarts(was: seq<Node>, farm: seq<NodeId>, stale: bool)
    requires UniqueIds(was) && !HasId(was, 0)
    ensures Sweeping(was, was, was, farm, stale, 0)
  {
  }

  lemma SweepEnds(was: seq<Node>, nodes: seq<Node>, behind: seq<Node>, farm: seq<NodeId>, stale: bool)
    requires Sweeping(was, nodes, behind, farm, stale, |was|)
    ensures nodes == Sweep(was, farm, stale)
  {
  }

  /** One node against the filters of a request. */
  method IsSuitable(n: Node, o: Options, overProvision: nat) returns (ok: bool)
    ensures ok <==> Suits(n, o, overProvision)
  {
    if NumGpu(o) > 0 {
      var gpus := FilterGpus(n, o);
      if |gpus| < NumGpu(o) { return false; }
    }
    if o.certified && !n.chain.certified { return false; }
    if o.publicConfig && !n.chain.publicConfig { return false; }
    if n.rented { return false; }
    if o.dedicated {
      if !n.dedicated || !n.IsUnused() { return false; }
    } else {
      if n.dedicated && Wanted(o) != n.total { return false; }
    }
    if n.Id() in o.excluded { return false; }
    ok := n.CanClaim(Wanted(o), overProvision);
  }

  /** A copy of the node with the claim on it. */
  method ClaimNode(n: Node, o: Options, now: Time) returns (found: Node)
    ensures found == Claimed(n, o, now)
  {
    found := n.(claimedUntil := now + CLAIM_TIMEOUT);
    if o.dedicated || NumGpu(o) > 0 {
      found := found.Claim(found.total);
    } else {
      found := found.Claim(Wanted(o));
    }
    if o.publicIPs > 0 { found := found.(publicIPsUsed := found.publicIPsUsed + o.publicIPs); }
  }

  /** Whether a node covers all that is left of some resource, and what is left then. */
  method Contribute(demand: Capacity, c: Capacity) returns (contribute: bool, rest: Capacity)
    ensures rest == Cover(demand, c) && (contribute <==> rest != demand)
  {
    contribute, rest := false, demand;
    if rest.cru > 0 && c.cru >= rest.cru { contribute, rest := true, rest.(cru := SubtractOrZero(rest.cru, c.cru)); }
    if rest.sru > 0 && c.sru >= rest.sru { contribute, rest := true, rest.(sru := SubtractOrZero(rest.sru, c.sru)); }
    if rest.mru > 0 && c.mru >= rest.mru { contribute, rest := true, rest.(mru := SubtractOrZero(rest.mru, c.mru)); }
    if rest.hru > 0 && c.hru >= rest.hru { contribute, rest := true, rest.(hru := SubtractOrZero(rest.hru, c.hru)); }
  }

  method SettleThresholds(configured: Thresholds) returns (ok: bool, t: Thresholds)
    ensures ok <==> ValidThreshold(configured.cru) && ValidThreshold(configured.mru)
                    && ValidThreshold(configured.hru) && ValidThreshold(configured.sru)
    ensures ok ==> t == Thresholds(Clamped(configured.cru), Clamped(configured.sru), Clamped(configured.mru),
        Clamped(configured.hru))
  {
    t := configured;
    if t.cru == 0.0 { t := t.(cru := DEFAULT_THRESHOLD); }
    if t.mru == 0.0 { t := t.(mru := DEFAULT_THRESHOLD); }
    if t.hru == 0.0 { t := t.(hru := DEFAULT_THRESHOLD); }
    if t.sru == 0.0 { t := t.(sru := DEFAULT_THRESHOLD); }
    if t.cru < 1.0 || t.cru > 100.0 || t.hru < 1.0 || t.hru > 100.0
       || t.sru < 1.0 || t.sru > 100.0 || t.mru < 1.0 || t.mru > 100.0 {
      return false, t;
    }
    if t.cru < MIN_THRESHOLD { t := t.(cru := MIN_THRESHOLD); }
    if t.mru < MIN_THRESHOLD { t := t.(mru := MIN_THRESHOLD); }
    if t.hru < MIN_THRESHOLD { t := t.(hru := MIN_THRESHOLD); }
    if t.sru < MIN_THRESHOLD { t := t.(sru := MIN_THRESHOLD); }
    if t.cru > MAX_THRESHOLD { t := t.(cru := MAX_THRESHOLD); }
    if t.mru > MAX_THRESHOLD { t := t.(mru := MAX_THRESHOLD); }
    if t.hru > MAX_THRESHOLD { t := t.(hru := MAX_THRESHOLD); }
    if t.sru > MAX_THRESHOLD { t := t.(sru := MAX_THRESHOLD); }
    ok := true;
  }

  class FarmerBot {
    var nodes: seq<Node>
    var cfg: Config

    constructor (nodes: seq<Node>, cfg: Config)
      ensures this.nodes == nodes && this.cfg == cfg
    {
      this.nodes, this.cfg := nodes, cfg;
    }

    // ----- The list ------------------------------------------------------------------

    method GetNode(id: NodeId) returns (i: nat, n: Node, found: bool)
      ensures match IndexOf(nodes, id)
              case Some(at) => found && i == at && n == nodes[at]
              case None => !found && n == ZERO_NODE
    {
      for k := 0 to |nodes|
        invariant forall j | 0 <= j < k :: nodes[j].Id() != id
      {
        if nodes[k].Id() == id { return k, nodes[k], true; }
      }
      return 0, ZERO_NODE, false;
    }

    method AddNode(n: Node)
      modifies `nodes
      ensures nodes == old(nodes) + [n]
    {
      nodes := nodes + [n];
    }

    method RemoveNode(id: NodeId)
      modifies `nodes
      ensures nodes == DeleteNode(old(nodes), id)
    {
      for k := 0 to |nodes|
        invariant nodes == old(nodes)
        invariant forall j | 0 <= j < k :: nodes[j].Id() != id
      {
        if nodes[k].Id() == id {
          nodes := nodes[..k] + nodes[k + 1..];
          return;
        }
      }
    }

    method WriteNode(n: Node) returns (ok: bool)
      modifies `nodes
      ensures Written(nodes, ok) == UpdateNode(old(nodes), n)
    {
      for k := 0 to |nodes|
        invariant nodes == old(nodes)
        invariant forall j | 0 <= j < k :: nodes[j].Id() != n.Id()
      {
        if nodes[k].Id() == n.Id() {
          nodes := nodes[k := n];
          return true;
        }
      }
      return false;
    }

    method FilterPower(states: set<PowerState>) returns (r: seq<Node>)
      ensures r == InState(nodes, states)
    {
      r := [];
      for k := 0 to |nodes|
        invariant r == InState(nodes[..k], states)
      {
        TakeNext(nodes, k);
        if nodes[k].power in states { r := r + [nodes[k]]; }
      }
      assert nodes[..|nodes|] == nodes;
    }

    method FilterAllowedToShutDown(now: Time) returns (r: seq<Node>)
      ensures r == Candidates(nodes, now)
    {
      r := [];
      for k := 0 to |nodes|
        invariant r == Candidates(nodes[..k], now)
      {
        TakeNext(nodes, k);
        if nodes[k].CanShutDown(now) { r := r + [nodes[k]]; }
      }
      assert nodes[..|nodes|] == nodes;
    }

    // ----- Power ------------------------------------------------------------------------

    method SwitchOn(id: NodeId, now: Time, chainOk: bool) returns (ok: bool)
      modifies `nodes
      ensures nodes == PowerOn(old(nodes), id, now, chainOk).nodes
      ensures ok == PowerOn(old(nodes), id, now, chainOk).ok
    {
      var _, n, found := GetNode(id);
      if !found { return false; }
      if n.power == On || n.power == WakingUp { return true; }
      if !chainOk { return false; }
      n := n.(power := WakingUp, lastAwake := now, lastPowerChange := now);
      ok := WriteNode(n);
    }

    method SwitchOff(id: NodeId, now: Time, answer: OffAnswer) returns (ok: bool, sent: bool)
      modifies `nodes
      ensures Effect(nodes, ok, sent) == PowerOff(old(nodes), id, now, answer)
    {
      var _, n, found := GetNode(id);
      if !found { return false, false; }
      if n.power == Off || n.power == ShuttingDown { return true, false; }
      if n.neverShutDown { return false, false; }
      if n.chain.publicConfig { return false, false; }
      if n.claimedUntil > now { return false, false; }
      if n.rented { return false, false; }
      if n.contracts { return false, false; }
      if !n.IsUnused() { return false, false; }
      if now - n.lastPowerChange < WAKE_UP_DURATION { return false, false; }
      var on := FilterPower({On});
      if |on| < 2 { return false, false; }
      n := n.(power := ShuttingDown, lastPowerChange := now);
      match answer {
        case Accepted => ok := WriteNode(n);
        case Rejected(down) =>
          ok := false;
          if down == Some(true) { var _ := WriteNode(n); }
      }
      sent := true;
    }

    method SelectNodesToPowerOn(demand: Capacity) returns (chosen: seq<NodeId>, ok: bool)
      ensures ok == Select(nodes, demand).demand.IsEmpty()
      ensures ok ==> chosen == Select(nodes, demand).chosen
    {
      chosen := [];
      var rest := demand;
      var k := 0;
      while k < |nodes|
        invariant 0 <= k <= |nodes|
        invariant var s := Select(nodes[k..], rest);
                  Select(nodes, demand) == Selection(chosen + s.chosen, s.demand)
      {
        var n := nodes[k];
        SelectNext(nodes, k, rest);
        if n.power != Off {
          k := k + 1;
          continue;
        }
        var contribute;
        contribute, rest := Contribute(rest, n.chain.resources);
        if contribute { chosen := chosen + [n.Id()]; }
        if rest.IsEmpty() { return chosen, true; }
        k := k + 1;
      }
      assert nodes[k..] == [];
      ok := rest.IsEmpty();
    }

    method UsageTooHigh(demand: Capacity, now: Time, turnsOn: NodeId -> bool) returns (ok: bool)
      modifies `nodes
      ensures var s := Select(old(nodes), demand);
              && ok == s.demand.IsEmpty()
              && nodes == if ok then PowerOnAll(old(nodes), s.chosen, now, turnsOn) else old(nodes)
    {
      var chosen;
      chosen, ok := SelectNodesToPowerOn(demand);
      if !ok { return; }
      for k := 0 to |chosen|
        invariant nodes == PowerOnAll(old(nodes), chosen[..k], now, turnsOn)
      {
        TakeNext(chosen, k);
        var _ := SwitchOn(chosen[k], now, turnsOn(chosen[k]));
      }
      assert chosen[..|chosen|] == chosen;
    }

    /** `s` is what the loop's variables stand for. */
    method UsageTooLow(used: Capacity, total: Capacity, now: Time, turnsOff: NodeId -> OffAnswer)
          returns (ghost s: Shrink)
      requires used == UsedSum(Online(nodes), {}) && total == TotalSum(Online(nodes), {})
      modifies `nodes
      ensures cfg == old(cfg) && s == TooLow(old(nodes), now, cfg.thresholds, turnsOff) && nodes == s.nodes
    {
      var on := FilterPower({On});
      var allowed := FilterAllowedToShutDown(now);
      s := StartShrink(nodes);
      if |on| <= 1 { return; }
      var newUsed, newTotal, left := used, total, |on|;
      for k := 0 to |allowed|
        invariant s == ConsiderAll(StartShrink(old(nodes)), allowed[..k], now, cfg.thresholds, turnsOff)
        invariant s.nodes == nodes && s.used == newUsed && s.total == newTotal && s.left == left && !s.stopped
      {
        TakeNext(allowed, k);
        var n := allowed[k];
        s := Consider(s, n, now, cfg.thresholds, turnsOff(n.Id()));
        StopsForGood(StartShrink(old(nodes)), allowed, k + 1, now, cfg.thresholds, turnsOff);
        if left == 1 { break; }
        left := left - 1;
        var oldUsed, oldTotal := newUsed, newTotal;
        newUsed, newTotal := newUsed.Minus(n.used), newTotal.Minus(n.total);
        if newTotal.IsEmpty() { break; }
        if MeetDemand(newTotal, newUsed, Demands(newTotal, newUsed, cfg.thresholds)) {
          var ok, _ := SwitchOff(n.Id(), now, turnsOff(n.Id()));
          if !ok && n.power != ShuttingDown {
            newUsed, newTotal, left := oldUsed, oldTotal, left + 1;
          }
        }
      }
      assert allowed[..|allowed|] == allowed;
    }

    method ManagePower(now: Time, chain: Chain) returns (ok: bool, ghost issued: seq<Issued>)
      modifies `nodes
      ensures FarmPower.Managed(nodes, ok, issued) == Manage(old(nodes), now, cfg.thresholds, chain)
    {
      var online := FilterPower({On, WakingUp});
      var used, total := CalculateUsage(online);
      var demand := Demands(total, used, cfg.thresholds);
      if demand.cru > 0 || demand.mru > 0 || demand.sru > 0 || demand.hru > 0 {
        ok := UsageTooHigh(demand, now, chain.turnsOn);
        issued := [];
      } else {
        ghost var s := UsageTooLow(used, total, now, chain.turnsOff);
        ok, issued := true, s.issued;
      }
    }

    // ----- Finding a node -----------------------------------------------------------------

    method PossibleNodes(o: Options) returns (possible: seq<Node>)
      ensures AreCandidates(nodes, possible, o, cfg.overProvision, |nodes|)
    {
      possible := [];
      for k := 0 to |nodes|
        invariant AreCandidates(nodes, possible, o, cfg.overProvision, k)
      {
        var suits := IsSuitable(nodes[k], o, cfg.overProvision);
        if suits { possible := possible + [nodes[k]]; }
      }
    }

    method PublicIPsInUse() returns (used: nat)
      ensures used == PublicIPsUsed(nodes)
    {
      used := 0;
      for k := 0 to |nodes|
        invariant used == PublicIPsUsed(nodes[..k])
      {
        TakeNext(nodes, k);
        used := used + nodes[k].publicIPsUsed;
      }
      assert nodes[..|nodes|] == nodes;
    }

    /** The candidate that comes first by its power state, and where it stands in the list. The
        sort is not stable: of several such candidates any may come first. */
    method PickNode(o: Options) returns (found: Option<Node>, ghost pick: nat)
      ensures found.Some? <==> Findable(nodes, o, cfg.overProvision)
      ensures found.Some? ==> IsPick(nodes, o, cfg.overProvision, pick) && found.value == nodes[pick]
    {
      var possible := PossibleNodes(o);
      if possible == [] { return None, 0; }
      assert possible[0] in possible;
      ghost var some := SomeFirst(possible);
      var first :| 0 <= first < |possible| && IsFirst(possible, first);
      found := Some(possible[first]);
      pick := FirstIsPick(nodes, possible, first, o, cfg.overProvision);
    }

    /** `pick` is where the found node stands in the list. */
    method FindNode(o: Options, now: Time, chainOk: bool) returns (id: Option<NodeId>, ghost pick: nat)
      modifies `nodes
      ensures ProperPick(old(nodes), cfg.farmIPs, o, cfg.overProvision, pick)
      ensures Found(nodes, id) == Find(old(nodes), cfg.farmIPs, o, cfg.overProvision, now, pick, chainOk)
    {
      pick := 0;
      if o.publicIPs > 0 {
        var used := PublicIPsInUse();
        if (used + o.publicIPs) % WORD > cfg.farmIPs { return None, pick; }
      }
      var picked;
      picked, pick := PickNode(o);
      if picked.None? { return None, pick; }
      var found := ClaimNode(picked.value, o, now);
      id := Settle(found, now, chainOk);
    }

    /** The found node is woken if it sleeps, and then written back as it was found. */
    method Settle(found: Node, now: Time, chainOk: bool) returns (id: Option<NodeId>)
      modifies `nodes
      ensures Found(nodes, id) == FarmFind.Settle(old(nodes), found, now, chainOk)
    {
      if found.power == Off || found.power == ShuttingDown {
        var ok := SwitchOn(found.Id(), now, chainOk);
        if !ok { return None; }
      }
      var ok := WriteNode(found);
      id := if ok then Some(found.Id()) else None;
    }

    // ----- A round ------------------------------------------------------------------------

    /** The loop ranges over the array behind the list as it was at first. A removal moves the
        rest of the list one place down in that array; the place after the new end keeps its
        element, or is cleared, as the library has it. */
    method RemoveVanished(farm: seq<NodeId>, stale: bool)
      requires UniqueIds(nodes) && !HasId(nodes, 0)
      modifies `nodes
      ensures nodes == Sweep(old(nodes), farm, stale)
    {
      var behind := nodes;
      ghost var was := nodes;
      SweepStarts(was, farm, stale);
      for k := 0 to |behind|
        invariant |behind| == |was|
        invariant Sweeping(was, nodes, behind, farm, stale, k)
      {
        behind := RemoveIfVanished(was, behind, farm, stale, k);
      }
      SweepEnds(was, nodes, behind, farm, stale);
    }

    /** One place of the array; what the array is like afterwards. */
    method RemoveIfVanished(ghost was: seq<Node>, behind: seq<Node>, farm: seq<NodeId>, stale: bool, k: nat)
          returns (after: seq<Node>)
      requires UniqueIds(was) && |behind| == |was| && k < |behind| && Sweeping(was, nodes, behind, farm, stale, k)
      modifies `nodes
      ensures |after| == |was| && Sweeping(was, nodes, after, farm, stale, k + 1)
    {
      Turn(was, nodes, behind, farm, stale, k);
      after := behind;
      var id, length := behind[k].Id(), |nodes|;
      if id !in farm {
        RemoveNode(id);
        if |nodes| < length { after := Shifted(nodes, behind, stale); }
      }
    }

    method AddOrUpdateNode(id: NodeId, v: View, now: Time) returns (ok: bool)
      modifies `nodes
      ensures Written(nodes, ok) == AddOrUpdate(old(nodes), id, v, cfg, now)
    {
      var _, n, found := GetNode(id);
      if found {
        var r := Update(n, v, cfg, now);
        ok := WriteNode(r.node);
        return ok && r.ok;
      }
      var fetched := NewNode(id, v, cfg, now);
      if fetched.None? { return false; }
      AddNode(fetched.value);
      return true;
    }

    /** The reset and the wake-up of a node read back before. */
    method WakeUpNode(n: Node, a: Answers, calls: nat, c: Clock) returns (made: nat)
      modifies `nodes
      ensures Visited(nodes, made) == WakeUp(old(nodes), n, a, calls, cfg, c)
    {
      made := calls;
      var w := ShouldWake(n, a, calls, cfg, c);
      if w.wake {
        var _ := WriteNode(w.node);
        var ok := SwitchOn(n.Id(), c.now, a.second);
        if ok { made := made + 1; }
      }
    }

    method VisitNode(id: NodeId, a: Answers, calls: nat, c: Clock) returns (made: nat)
      modifies `nodes
      ensures Visited(nodes, made) == Visit(old(nodes), id, a, calls, cfg, c)
    {
      var _ := AddOrUpdateNode(id, a.view, c.now);
      var _, n, found := GetNode(id);
      if n.power == Off && (n.neverShutDown || n.rented) {
        var _ := SwitchOn(n.Id(), c.now, a.first);
      }
      if c.reset {
        n := n.(randomWakeUps := 0);
        var _ := WriteNode(n);
      }
      made := WakeUpNode(n, a, calls, c);
    }

    method VisitNodes(order: seq<NodeId>, answers: NodeId -> Answers, c: Clock)
      modifies `nodes
      ensures nodes == VisitAll(old(nodes), order, answers, cfg, c).nodes
    {
      var calls := 0;
      for k := 0 to |order|
        invariant Visited(nodes, calls) == VisitAll(old(nodes), order[..k], answers, cfg, c)
      {
        TakeNext(order, k);
        if order[k] in cfg.excluded { continue; }
        if order[k] !in cfg.included && |cfg.included| > 0 { continue; }
        calls := VisitNode(order[k], answers(order[k]), calls, c);
      }
      assert order[..|order|] == order;
    }

    /** The vanished nodes go, the others are visited. */
    method RefreshNodes(farm: seq<NodeId>, stale: bool, answers: NodeId -> Answers, c: Clock)
      requires UniqueIds(nodes) && !HasId(nodes, 0)
      modifies `nodes
      ensures nodes == Refresh(old(nodes), farm, stale, answers, cfg, c)
    {
      RemoveVanished(farm, stale);
      var order := AddPriority(cfg.priority, farm);
      VisitNodes(order, answers, c);
    }

    /** One round over the farm's nodes, and then the power. */
    method IterateOnNodes(farm: Option<seq<NodeId>>, stale: bool, answers: NodeId -> Answers, c: Clock, chain: Chain)
      returns (ok: bool, ghost offs: set<NodeId>)
      requires UniqueIds(nodes) && !HasId(nodes, 0)
      modifies `nodes
      ensures Outcome(nodes, offs)
          == Next(old(nodes), Round(farm, stale, answers, c.periodic, c.reset, chain), cfg, c.now)
      ensures ok <==>
                && farm.Some?
                && var refreshed := Refresh(old(nodes), farm.value, stale, answers, cfg, c);
                   Manage(refreshed, c.now, cfg.thresholds, chain).ok
    {
      if farm.None? { return false, {}; }
      RefreshNodes(farm.value, stale, answers, c);
      ghost var issued;
      ok, issued := ManagePower(c.now, chain);
      offs := SentTo(issued);
      NextRound(old(nodes), farm.value, stale, answers, cfg, c, chain);
    }

    // ----- The operator's calls ------------------------------------------------------------

    method IncludeNode(id: NodeId, v: View, now: Time) returns (ok: bool)
      modifies `nodes
      ensures nodes == Included(old(nodes), id, v, cfg, now)
      ensures ok <==> |nodes| == |old(nodes)| + 1
    {
      var _, _, found := GetNode(id);
      if found { return false; }
      if id in cfg.excluded || (|cfg.excluded| == 0 && id !in cfg.included) { return false; }
      var fetched := NewNode(id, v, cfg, now);
      if fetched.None? { return false; }
      AddNode(fetched.value);
      return true;
    }

    method OperatorSwitchesOff(id: NodeId, paid: bool, now: Time, answer: OffAnswer) returns (ok: bool,
          ghost offs: set<NodeId>)
      modifies `nodes
      ensures Outcome(nodes, offs) == Next(old(nodes), OperatorOff(id, paid, answer), cfg, now)
      ensures ok <==> paid && PowerOff(old(nodes), id, now, answer).ok
    {
      offs := {};
      if !paid { return false, offs; }
      var sent;
      ok, sent := SwitchOff(id, now, answer);
      offs := if sent then {id} else {};
      if ok { RemoveNode(id); }
    }

    method OperatorSwitchesOn(id: NodeId, paid: bool, now: Time, chainOk: bool) returns (ok: bool)
      modifies `nodes
      ensures nodes == Next(old(nodes), OperatorOn(id, paid, chainOk), cfg, now).nodes
      ensures ok <==> paid && PowerOn(old(nodes), id, now, chainOk).ok
    {
      if !paid { return false; }
      ok := SwitchOn(id, now, chainOk);
      if ok { RemoveNode(id); }
    }

    // ----- Starting up -------------------------------------------------------------------

    /** Whether the bot may run. If so there are two nodes or more, each with an id, a twin and
        some of every resource but HDD, and the thresholds are the configured ones brought
        between the bounds. */
    method Validate(farmId: nat) returns (ok: bool)
      modifies `cfg
      ensures ok <==>
                && farmId != 0 && |nodes| >= 2
                && (forall n | n in nodes :: n.Id() != 0 && n.chain.twin != 0 && Positive(n))
                && var t := old(cfg).thresholds;
                   && (t.cru == 0.0 || 1.0 <= t.cru <= 100.0) && (t.sru == 0.0 || 1.0 <= t.sru <= 100.0)
                   && (t.mru == 0.0 || 1.0 <= t.mru <= 100.0) && (t.hru == 0.0 || 1.0 <= t.hru <= 100.0)
      ensures ok ==> AllPositive(nodes) && Percentages(cfg.thresholds)
      ensures ok ==> var t := old(cfg).thresholds;
                     cfg.thresholds == Thresholds(Clamped(t.cru), Clamped(t.sru), Clamped(t.mru), Clamped(t.hru))
      ensures ok ==> cfg == old(cfg).(thresholds := cfg.thresholds, wakeUpLimit := cfg.wakeUpLimit)
      ensures ok ==> cfg.wakeUpLimit == if old(cfg).wakeUpLimit == 0 then 1 else old(cfg).wakeUpLimit
    {
      if farmId == 0 || |nodes| < 2 { return false; }
      for k := 0 to |nodes|
        invariant forall j | 0 <= j < k :: nodes[j].Id() != 0 && nodes[j].chain.twin != 0 && Positive(nodes[j])
      {
        var n := nodes[k];
        if n.Id() == 0 || n.chain.twin == 0 || n.total.sru == 0 || n.total.cru == 0 || n.total.mru == 0 {
          assert n in nodes;
          return false;
        }
      }
      var t;
      ok, t := SettleThresholds(cfg.thresholds);
      cfg := cfg.(thresholds := t);
      if ok && cfg.wakeUpLimit == 0 { cfg := cfg.(wakeUpLimit := 1); }
    }
  }
}
