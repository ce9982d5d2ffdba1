/** The network object: its methods fill in subnets, keys, ports and the public node, and
    write one workload per node. */
module ZNets {
  import opened Wrappers
  import opened Addresses
  import opened Subnets
  import opened Mesh
  import opened Generation

  datatype GenError = MissingEndpoint | NoPublicNode | NoFreeOctet

  function OctetSet(used: seq<int>): (r: set<int>)
    ensures forall x :: x in r <==> x in used
  {
    set x | x in used
  }

  /** The first free octet from `start` on; the caller's variable is advanced to it. */
  method NextFreeIP(used: seq<int>, start: int) returns (cur: int, ok: bool)
    requires 2 <= start <= 254
    ensures NextFree(OctetSet(used), start) == if ok then Some(cur) else None
  {
    cur := start;
    while cur in used && cur <= 254
      invariant start <= cur <= 255
      invariant NextFree(OctetSet(used), start) == NextFree(OctetSet(used), cur)
      decreases 255 - cur
    {
      cur := cur + 1;
    }
    ok := cur != 255;
  }

  /** The keys after giving one to every node that lacks it. */
  function KeysFor(keys: map<NodeId, Key>, nodes: seq<NodeId>, generated: NodeId -> Key): map<NodeId, Key> {
    keys + (map n | n in Elems(nodes) - keys.Keys :: generated(n))
  }

  lemma KeysForNext(keys: map<NodeId, Key>, nodes: seq<NodeId>, n: NodeId, generated: NodeId -> Key)
    ensures var before := KeysFor(keys, nodes, generated);
            KeysFor(keys, nodes + [n], generated) == if n in before then before else before[n := generated(n)]
  {
  }

  /** The ports after giving each node the port drawn for its position. */
  function PortsFor(ports: map<NodeId, nat>, nodes: seq<NodeId>, draws: seq<nat>): map<NodeId, nat>
    requires |draws| >= |nodes|
    decreases |nodes|
  {
    if nodes == [] then ports
    else
      var k := |nodes| - 1;
      PortsFor(ports, nodes[..k], draws)[nodes[k] := draws[k]]
  }

  function PortsIn(used: map<NodeId, seq<nat>>, n: NodeId): seq<nat> {
    if n in used then used[n] else []
  }

  /** The used-port lists after the draws. */
  function UsedAfter(used: map<NodeId, seq<nat>>, nodes: seq<NodeId>, draws: seq<nat>): map<NodeId, seq<nat>>
    requires |draws| >= |nodes|
    decreases |nodes|
  {
    if nodes == [] then used
    else
      var k := |nodes| - 1;
      var before := UsedAfter(used, nodes[..k], draws);
      before[nodes[k] := PortsIn(before, nodes[k]) + [draws[k]]]
  }

  /** The accepted random draws: each in 1024..32767 and not used on its node by then. */
  predicate GoodDraws(used: map<NodeId, seq<nat>>, nodes: seq<NodeId>, draws: seq<nat>)
    decreases |nodes|
  {
    && |draws| >= |nodes|
    && (nodes != [] ==>
          var k := |nodes| - 1;
          && GoodDraws(used, nodes[..k], draws)
          && 1024 <= draws[k] < 32768
          && draws[k] !in PortsIn(UsedAfter(used, nodes[..k], draws), nodes[k]))
  }

  // ----- The generator as a function --------------------------------------------

  /** The part of a network that generating its deployments reads and writes. */
  datatype State = State(
    plan: Plan,
    public: NodeId,
    keys: map<NodeId, Key>,
    ports: map<NodeId, nat>,
    userKey: Key,
    config: Option<UserConfig>)

  /** What the rest of the world supplies: endpoints, ports in use, a public node, and
      everything random. */
  datatype World = World(
    eps: Endpoints,
    usedPorts: map<NodeId, seq<nat>>,
    supplied: NodeId,
    generated: NodeId -> Key,
    userKey: Key,
    draws: seq<nat>)

  datatype Generated = Generated(
    result: Result<map<NodeId, Workload>, GenError>,
    state: State,
    usedPorts: map<NodeId, seq<nat>>)

  function ChoiceFor(s: State, nodes: seq<NodeId>, w: World): Option<Choice>
    requires AllAnswered(nodes, w.eps)
  {
    Choose(s.plan.access, s.public, nodes, w.eps, w.supplied)
  }

  predicate GoodWorld(s: State, nodes: seq<NodeId>, w: World) {
    AllAnswered(nodes, w.eps) && ChoiceFor(s, nodes, w).Some? ==>
      GoodDraws(w.usedPorts, HiddenOf(nodes, w.eps) + ChoiceFor(s, nodes, w).value.accessible, w.draws)
  }

  /** The network once its public node, subnets, keys and ports are settled. */
  function Settled(s: State, plan: Plan, hidden: seq<NodeId>, c: Choice, w: World): Net
    requires |w.draws| >= |hidden + c.accessible|
  {
    var all := hidden + c.accessible;
    Net(plan.ipRange, plan.access, plan.external,
        if plan.access && s.userKey == 0 then w.userKey else s.userKey,
        hidden, c.accessible, c.public, c.hosts, plan.ranges,
        KeysFor(s.keys, all, w.generated), PortsFor(s.ports, all, w.draws))
  }

  lemma SettledIsAddressed(s: State, hidden: seq<NodeId>, c: Choice, w: World)
    requires |w.draws| >= |hidden + c.accessible| && Assign(s.plan, hidden + c.accessible).ok
    ensures Addressed(Settled(s, Assign(s.plan, hidden + c.accessible).plan, hidden, c, w))
  {
    AssignServes(s.plan, hidden + c.accessible);
    var m := Settled(s, Assign(s.plan, hidden + c.accessible).plan, hidden, c, w);
    forall n | m.Has(n) ensures n in m.ranges {
      assert n in hidden + c.accessible;
    }
  }

  /** What remains of a network once its deployments are written. */
  function StateOf(s: State, m: Net): State
    requires Addressed(m)
  {
    State(Plan(m.ipRange, m.access, m.external, m.ranges), m.public, m.keys, m.ports, m.externalKey,
          if m.access then Some(UserConfigOf(m)) else s.config)
  }

  /** On an error only what was settled so far has changed. */
  function Generate(s: State, nodes: seq<NodeId>, w: World): Generated
    requires GoodWorld(s, nodes, w)
  {
    if !AllAnswered(nodes, w.eps) then
      Generated(Err(MissingEndpoint), s, w.usedPorts)
    else match ChoiceFor(s, nodes, w)
      case None => Generated(Err(NoPublicNode), s, w.usedPorts)
      case Some(c) =>
        var hidden := HiddenOf(nodes, w.eps);
        var addressed := Assign(s.plan, hidden + c.accessible);
        if !addressed.ok then
          Generated(Err(NoFreeOctet), s.(plan := addressed.plan, public := c.public), w.usedPorts)
        else
          SettledIsAddressed(s, hidden, c, w);
          var m := Settled(s, addressed.plan, hidden, c, w);
          Generated(Ok(Workloads(m)), StateOf(s, m), UsedAfter(w.usedPorts, hidden + c.accessible, w.draws))
  }

  lemma GenerateFails(s: State, nodes: seq<NodeId>, w: World, c: Choice, plan: Plan)
    requires AllAnswered(nodes, w.eps) && GoodWorld(s, nodes, w) && ChoiceFor(s, nodes, w) == Some(c)
    requires Assign(s.plan, HiddenOf(nodes, w.eps) + c.accessible) == Outcome(plan, false)
    ensures Generate(s, nodes, w) == Generated(Err(NoFreeOctet), s.(plan := plan, public := c.public), w.usedPorts)
  {
  }

  lemma GenerateSucceeds(s: State, nodes: seq<NodeId>, w: World, c: Choice, plan: Plan)
    requires AllAnswered(nodes, w.eps) && GoodWorld(s, nodes, w) && ChoiceFor(s, nodes, w) == Some(c)
    requires Assign(s.plan, HiddenOf(nodes, w.eps) + c.accessible) == Outcome(plan, true)
    ensures GoodDraws(w.usedPorts, HiddenOf(nodes, w.eps) + c.accessible, w.draws)
    ensures var m := Settled(s, plan, HiddenOf(nodes, w.eps), c, w);
            Addressed(m) &&
            Generate(s, nodes, w) == Generated(Ok(Workloads(m)), StateOf(s, m),
              UsedAfter(w.usedPorts, HiddenOf(nodes, w.eps) + c.accessible, w.draws))
  {
    SettledIsAddressed(s, HiddenOf(nodes, w.eps), c, w);
  }

  predicate HasClosedPeer(w: Workload) {
    exists i | 0 <= i < |w.peers| :: w.peers[i].link.endpoint == NoEndpoint
  }

  lemma SplitStep(nodes: seq<NodeId>, eps: Endpoints, i: nat)
    requires i < |nodes| && AllAnswered(nodes[..i], eps) && nodes[i] in eps
    ensures var init, all, n := nodes[..i], nodes[..i + 1], nodes[i];
            && AllAnswered(all, eps)
            && HiddenOf(all, eps) == HiddenOf(init, eps) + (if eps[n] == Unreachable then [n] else [])
            && AccessibleOf(all, eps) == AccessibleOf(init, eps) + (if eps[n] == Unreachable then [] else [n])
            && LastV4(all, eps) == (if eps[n].V4? then n else LastV4(init, eps))
            && HostsOf(all, eps)
                == (if eps[n] == Unreachable then HostsOf(init, eps) else HostsOf(init, eps)[n := HostText(eps[n])])
  {
    var init, all := nodes[..i], nodes[..i + 1];
    assert all == init + [nodes[i]];
    assert all[..|all| - 1] == init;
  }

  lemma ElemsSnoc(nodes: seq<NodeId>, i: nat)
    requires i < |nodes|
    ensures Elems(nodes[..i + 1]) == Elems(nodes[..i]) + {nodes[i]}
  {
  }

  /** Splits the nodes by their endpoint; stops at a node that did not answer. */
  method SplitNodes(nodes: seq<NodeId>, eps: Endpoints)
      returns (answered: bool, hidden: seq<NodeId>, accessible: seq<NodeId>, ipv4Node: NodeId, hosts: map<NodeId, Host>)
    ensures answered <==> AllAnswered(nodes, eps)
    ensures answered ==> hidden == HiddenOf(nodes, eps) && accessible == AccessibleOf(nodes, eps)
    ensures answered ==> ipv4Node == LastV4(nodes, eps) && hosts == HostsOf(nodes, eps)
  {
    hidden, accessible, ipv4Node, hosts := [], [], 0, map[];
    for i := 0 to |nodes|
      invariant AllAnswered(nodes[..i], eps)
      invariant hidden == HiddenOf(nodes[..i], eps) && accessible == AccessibleOf(nodes[..i], eps)
      invariant ipv4Node == LastV4(nodes[..i], eps) && hosts == HostsOf(nodes[..i], eps)
    {
      var n := nodes[i];
      if n !in eps {
        return false, hidden, accessible, ipv4Node, hosts;
      }
      SplitStep(nodes, eps, i);
      match eps[n] {
        case Unreachable => hidden := hidden + [n];
        case V4(_) =>
          accessible := accessible + [n];
          ipv4Node := n;
          hosts := hosts[n := Plain(eps[n])];
        case V6(_) =>
          accessible := accessible + [n];
          hosts := hosts[n := Bracketed(eps[n])];
      }
    }
    assert nodes[..|nodes|] == nodes;
    answered := true;
  }

  /** The ranges reached only through the public node. */
  method CollectNonAccessible(m: Net) returns (nets: seq<IPNet>)
    requires Addressed(m)
    ensures nets == NonAccessible(m)
  {
    nets := [];
    for i := 0 to |m.hidden|
      invariant nets == NetsOf(m, m.hidden[..i])
    {
      var r := m.ranges[m.hidden[i]];
      assert m.hidden[..i + 1][..i] == m.hidden[..i];
      nets := nets + [r] + [WgIP(r)];
      assert nets == NetsOf(m, m.hidden[..i]) + OwnNets(m, Node(m.hidden[i]));
    }
    assert m.hidden[..|m.hidden|] == m.hidden;
    if m.access {
      nets := nets + [m.external.value] + [WgIP(m.external.value)];
      assert nets == NetsOf(m, m.hidden) + OwnNets(m, User);
    }
  }

  /** The entries of one node for the accessible nodes. */
  method WriteOpenPeers(m: Net, nodeID: NodeId, nonAccessible: seq<IPNet>) returns (peers: seq<Peer>)
    requires Addressed(m) && nonAccessible == NonAccessible(m)
    ensures peers == OpenPeers(m, nodeID, m.accessible)
  {
    peers := [];
    for i := 0 to |m.accessible|
      invariant peers == OpenPeers(m, nodeID, m.accessible[..i])
    {
      var peer := m.accessible[i];
      assert m.accessible[..i + 1][..i] == m.accessible[..i];
      if peer != nodeID {
        var range := m.ranges[peer];
        var allowedIPs := [range, WgIP(range)];
        if peer == m.public {
          allowedIPs := allowedIPs + nonAccessible;
        }
        assert allowedIPs == OwnNets(m, Node(peer)) + (if peer == m.public then nonAccessible else []);
        peers := peers + [Peer(range, Link(Pub(m.KeyOf(peer)), At(m.HostOf(peer), m.PortOf(peer)), allowedIPs))];
      }
    }
    assert m.accessible[..|m.accessible|] == m.accessible;
  }

  /** The entries of the public node for the user and the hidden nodes. */
  method WriteClosedPeers(m: Net) returns (peers: seq<Peer>)
    requires Addressed(m)
    ensures peers == (if m.access then [ClosedPeer(m, User)] else []) + ClosedPeers(m, m.hidden)
  {
    peers := [];
    if m.access {
      var user := m.external.value;
      peers := [Peer(user, Link(Pub(m.externalKey), NoEndpoint, [user, WgIP(user)]))];
    }
    ghost var withUser := peers;
    for i := 0 to |m.hidden|
      invariant peers == withUser + ClosedPeers(m, m.hidden[..i])
    {
      var range := m.ranges[m.hidden[i]];
      assert m.hidden[..i + 1][..i] == m.hidden[..i];
      peers := peers + [Peer(range, Link(Pub(m.KeyOf(m.hidden[i])), NoEndpoint, [range, WgIP(range)]))];
    }
    assert m.hidden[..|m.hidden|] == m.hidden;
  }

  /** The peers of one accessible node. */
  method WritePeers(m: Net, nodeID: NodeId, nonAccessible: seq<IPNet>) returns (peers: seq<Peer>)
    requires Addressed(m) && m.Has(nodeID) && nonAccessible == NonAccessible(m)
    ensures peers == PeersOfAccessible(m, nodeID)
  {
    peers := WriteOpenPeers(m, nodeID, nonAccessible);
    if nodeID == m.public {
      var closed := WriteClosedPeers(m);
      peers := peers + closed;
    }
  }

  /** The workloads of the accessible nodes. */
  method WriteAccessible(m: Net) returns (dls: map<NodeId, Workload>)
    requires Addressed(m)
    ensures dls.Keys == Elems(m.accessible)
    ensures forall n | n in dls :: dls[n] == WorkloadWith(m, n, PeersOfAccessible(m, n))
  {
    dls := map[];
    var nonAccessible := CollectNonAccessible(m);
    for i := 0 to |m.accessible|
      invariant dls.Keys == Elems(m.accessible[..i])
      invariant forall n | n in dls :: dls[n] == WorkloadWith(m, n, PeersOfAccessible(m, n))
    {
      var n := m.accessible[i];
      ElemsSnoc(m.accessible, i);
      var peers := WritePeers(m, n, nonAccessible);
      dls := dls[n := WorkloadWith(m, n, peers)];
    }
    assert m.accessible[..|m.accessible|] == m.accessible;
  }

  /** The workloads of the hidden nodes, written over those of the accessible ones. */
  method WriteHidden(m: Net, accessible: map<NodeId, Workload>) returns (dls: map<NodeId, Workload>)
    requires Addressed(m)
    ensures dls.Keys == accessible.Keys + Elems(m.hidden)
    ensures forall n | n in m.hidden :: dls[n] == WorkloadWith(m, n, PeersOfHidden(m, n))
    ensures forall n | n in accessible && n !in m.hidden :: dls[n] == accessible[n]
  {
    dls := accessible;
    for i := 0 to |m.hidden|
      invariant dls.Keys == accessible.Keys + Elems(m.hidden[..i])
      invariant forall n | n in Elems(m.hidden[..i]) :: dls[n] == WorkloadWith(m, n, PeersOfHidden(m, n))
      invariant forall n | n in accessible && n !in Elems(m.hidden[..i]) :: dls[n] == accessible[n]
    {
      var n := m.hidden[i];
      ElemsSnoc(m.hidden, i);
      var peers: seq<Peer> := [];
      if m.public != 0 {
        peers := peers + [Peer(m.ranges[n], Gateway(m))];
      }
      dls := dls[n := WorkloadWith(m, n, peers)];
    }
    assert m.hidden[..|m.hidden|] == m.hidden;
  }

  /** The workloads of all nodes. */
  method WriteWorkloads(m: Net) returns (dls: map<NodeId, Workload>)
    requires Addressed(m)
    ensures dls == Workloads(m)
  {
    dls := WriteAccessible(m);
    dls := WriteHidden(m, dls);
    assert dls.Keys == Elems(m.hidden + m.accessible);
  }

  method FindClosedPeer(w: Workload) returns (closed: bool)
    ensures closed <==> HasClosedPeer(w)
  {
    closed := false;
    for i := 0 to |w.peers|
      invariant closed <==> exists j | 0 <= j < i :: w.peers[j].link.endpoint == NoEndpoint
    {
      if w.peers[i].link.endpoint == NoEndpoint {
        closed := true;
      }
    }
  }

  /** The keys, ports and subnets are those of the workloads, and some peer of theirs has no
      endpoint exactly when there is access. */
  ghost predicate ReadOff(dls: map<NodeId, Workload>, keys: map<NodeId, Key>, ports: map<NodeId, nat>,
      ranges: map<NodeId, IPNet>, access: bool) {
    && keys == (map n | n in dls :: dls[n].privateKey)
    && ports == (map n | n in dls :: dls[n].listenPort)
    && ranges == (map n | n in dls :: dls[n].subnet)
    && (access <==> exists n | n in dls :: HasClosedPeer(dls[n]))
  }

  lemma ReadOffNext(dls: map<NodeId, Workload>, keys: map<NodeId, Key>, ports: map<NodeId, nat>,
      ranges: map<NodeId, IPNet>, access: bool, node: NodeId, d: Workload)
    requires ReadOff(dls, keys, ports, ranges, access) && node !in dls
    ensures ReadOff(dls[node := d], keys[node := d.privateKey], ports[node := d.listenPort], ranges[node := d.subnet],
              access || HasClosedPeer(d))
  {
    var all := dls[node := d];
    if HasClosedPeer(d) { assert HasClosedPeer(all[node]); }
    if n :| n in dls && HasClosedPeer(dls[n]) { assert HasClosedPeer(all[n]); }
  }

  method ReadAll(dls: map<NodeId, Workload>, parses: NodeId -> bool) returns (ok: bool,
        keys: map<NodeId, Key>, ports: map<NodeId, nat>, ranges: map<NodeId, IPNet>, access: bool)
    ensures ok <==> forall n | n in dls :: parses(n)
    ensures ok ==> ReadOff(dls, keys, ports, ranges, access)
  {
    keys, ports, ranges, access := map[], map[], map[], false;
    var todo := dls.Keys;
    ghost var part: map<NodeId, Workload> := map[];
    while todo != {}
      invariant todo <= dls.Keys && part == dls - todo
      invariant forall n | n in part :: parses(n)
      invariant ReadOff(part, keys, ports, ranges, access)
      decreases todo
    {
      var node :| node in todo;
      if !parses(node) { return false, keys, ports, ranges, access; }
      var d := dls[node];
      var closed := FindClosedPeer(d);
      ReadOffNext(part, keys, ports, ranges, access, node, d);
      keys, ports, ranges := keys[node := d.privateKey], ports[node := d.listenPort], ranges[node := d.subnet];
      access := access || closed;
      todo, part := todo - {node}, part[node := d];
    }
    assert part == dls;
    ok := true;
  }

  /** What the chain says of a contract, if it says anything. */
  datatype OnChain = Created | Vanished | Unread

  function Dead(contracts: map<NodeId, nat>, contractOf: NodeId -> OnChain): set<NodeId> {
    set n | n in contracts && contractOf(n) == Vanished
  }

  class ZNet {
    var nodes: seq<NodeId>
    var ipRange: IPNet
    var addWGAccess: bool
    var externalIP: Option<IPNet>
    var externalSK: Key
    var publicNodeID: NodeId
    var nodesIPRange: map<NodeId, IPNet>
    var wgPort: map<NodeId, nat>
    var keys: map<NodeId, Key>
    var accessWGConfig: Option<UserConfig>
    var nodeDeploymentID: map<NodeId, nat>

    /** The addressing part of the network. */
    function ThePlan(): Plan
      reads this
    {
      Plan(ipRange, addWGAccess, externalIP, nodesIPRange)
    }

    function TheState(): State
      reads this
    {
      State(ThePlan(), publicNodeID, keys, wgPort, externalSK, accessWGConfig)
    }

    constructor (nodes: seq<NodeId>, ipRange: IPNet, addWGAccess: bool)
      ensures this.nodes == nodes && ThePlan() == Plan(ipRange, addWGAccess, None, map[])
      ensures Sound(ThePlan())
      ensures publicNodeID == 0 && externalSK == 0 && keys == map[] && wgPort == map[]
    {
      nodeDeploymentID := map[];
      this.nodes, this.ipRange, this.addWGAccess := nodes, ipRange, addWGAccess;
      externalIP, externalSK, publicNodeID := None, 0, 0;
      nodesIPRange, wgPort, keys, accessWGConfig := map[], map[], map[], None;
    }

    /** Forgets the nodes whose contract is gone; a contract that cannot be read ends it. */
    method ForgetNodes(contractOf: NodeId -> OnChain) returns (ok: bool, ghost forgotten: set<NodeId>)
      modifies this`nodesIPRange, this`keys, this`wgPort, this`nodeDeploymentID
      ensures ok <==> forall n | n in old(nodeDeploymentID) :: contractOf(n) != Unread
      ensures forgotten <= Dead(old(nodeDeploymentID), contractOf)
      ensures ok ==> forgotten == Dead(old(nodeDeploymentID), contractOf)
      ensures nodeDeploymentID == old(nodeDeploymentID) - forgotten && nodesIPRange == old(nodesIPRange) - forgotten
      ensures keys == old(keys) - forgotten && wgPort == old(wgPort) - forgotten
    {
      var todo := nodeDeploymentID.Keys;
      forgotten := {};
      while todo != {}
        invariant todo <= old(nodeDeploymentID.Keys)
        invariant forall n | n in old(nodeDeploymentID) && n !in todo :: contractOf(n) != Unread
        invariant forgotten == Dead(old(nodeDeploymentID), contractOf) - todo
        invariant nodeDeploymentID == old(nodeDeploymentID) - forgotten && nodesIPRange == old(nodesIPRange) - forgotten
        invariant keys == old(keys) - forgotten && wgPort == old(wgPort) - forgotten
        decreases todo
      {
        var node :| node in todo;
        match contractOf(node) {
          case Unread => return false, forgotten;
          case Created =>
          case Vanished =>
            nodeDeploymentID, nodesIPRange := nodeDeploymentID - {node}, nodesIPRange - {node};
            keys, wgPort := keys - {node}, wgPort - {node};
            forgotten := forgotten + {node};
        }
        todo := todo - {node};
      }
      ok := true;
    }

    /** Forgets the node subnets outside the network range. */
    method ForgetOutside()
      modifies this`nodesIPRange
      ensures nodesIPRange ==
                map n | n in old(nodesIPRange) && Contains(ipRange, old(nodesIPRange)[n].ip) :: old(nodesIPRange)[n]
    {
      var todo := nodesIPRange.Keys;
      while todo != {}
        invariant todo <= nodesIPRange.Keys <= old(nodesIPRange).Keys
        invariant forall n | n in nodesIPRange :: nodesIPRange[n] == old(nodesIPRange)[n]
        invariant forall n | n in nodesIPRange && n !in todo :: Contains(ipRange, nodesIPRange[n].ip)
        invariant forall n | n in old(nodesIPRange) && n !in nodesIPRange :: !Contains(ipRange, old(nodesIPRange)[n].ip)
        decreases todo
      {
        var node :| node in todo;
        if !Contains(ipRange, nodesIPRange[node].ip) {
          nodesIPRange := nodesIPRange - {node};
        }
        todo := todo - {node};
      }
    }

    /** Forgets what earlier calls left broken: vanished contracts, addresses outside the
        range, a public node that is down, and the user subnet when access is off. A contract
        that cannot be read ends it after some of the vanished ones are forgotten. */
    method InvalidateBrokenAttributes(contractOf: NodeId -> OnChain, publicNodeUp: bool)
        returns (ok: bool, ghost forgotten: set<NodeId>)
      modifies this`nodesIPRange, this`keys, this`wgPort, this`externalIP, this`publicNodeID, this`nodeDeploymentID
      ensures ok <==> forall n | n in old(nodeDeploymentID) :: contractOf(n) != Unread
      ensures forgotten <= Dead(old(nodeDeploymentID), contractOf)
      ensures nodeDeploymentID == old(nodeDeploymentID) - forgotten
      ensures keys == old(keys) - forgotten && wgPort == old(wgPort) - forgotten
      ensures if ok then
                && forgotten == Dead(old(nodeDeploymentID), contractOf)
                && ThePlan() == Invalidate(old(ThePlan()), forgotten)
                && publicNodeID == if publicNodeUp then old(publicNodeID) else 0
              else
                && ThePlan() == old(ThePlan()).(ranges := old(nodesIPRange) - forgotten)
                && publicNodeID == old(publicNodeID)
    {
      ok, forgotten := ForgetNodes(contractOf);
      if !ok { return; }
      if externalIP.Some? && !Contains(ipRange, externalIP.value.ip) {
        externalIP := None;
      }
      assert nodesIPRange == old(nodesIPRange) - forgotten;
      ForgetOutside();
      assert nodesIPRange == Invalidate(old(ThePlan()), forgotten).ranges;
      if publicNodeID != 0 && !publicNodeUp {
        publicNodeID := 0;
      }
      if !addWGAccess {
        externalIP := None;
      }
    }

    /** The subnets of the listed nodes that have one, and their octets. */
    method CollectKept(nodes: seq<NodeId>) returns (ips: map<NodeId, IPNet>, used: seq<int>)
      ensures ips == Kept(nodesIPRange, nodes) && OctetSet(used) == Thirds(ips)
    {
      ghost var kept := Kept(nodesIPRange, nodes);
      ips, used := map[], [];
      var todo := nodesIPRange.Keys;
      while todo != {}
        invariant todo <= nodesIPRange.Keys
        invariant ips.Keys == kept.Keys - todo
        invariant forall n | n in ips :: ips[n] == kept[n]
        invariant OctetSet(used) == Thirds(ips)
        decreases todo
      {
        var node :| node in todo;
        if node in nodes {
          UsedGrow(used, nodesIPRange[node].ip.c);
          ThirdsGrow(ips, node, nodesIPRange[node]);
          used := used + [nodesIPRange[node].ip.c];
          ips := ips[node := nodesIPRange[node]];
        }
        todo := todo - {node};
      }
    }

    /** Takes the user's octet into account, choosing one if there is none. */
    method ReserveUser(nodes: seq<NodeId>, taken: seq<int>) returns (used: seq<int>, cur: int, ok: bool)
      requires OctetSet(taken) == Thirds(Kept(nodesIPRange, nodes))
      modifies this`externalIP
      ensures Begin(old(ThePlan()), nodes) == if ok then Some(Start(ThePlan(), OctetSet(used), cur)) else None
      ensures !ok ==> externalIP == old(externalIP)
    {
      used, cur, ok := taken, 2, true;
      if addWGAccess {
        if externalIP.Some? {
          UsedGrow(used, externalIP.value.ip.c);
          used := used + [externalIP.value.ip.c];
        } else {
          cur, ok := NextFreeIP(used, cur);
          if !ok { return; }
          UsedGrow(used, cur);
          used := used + [cur];
          externalIP := Some(UserSubnet(ipRange, cur));
        }
      }
    }

    /** Gives every listed node a subnet, and the user one when access is on. */
    method AssignNodesIPs(nodes: seq<NodeId>) returns (ok: bool)
      modifies this`externalIP, this`nodesIPRange
      ensures Outcome(ThePlan(), ok) == Assign(old(ThePlan()), nodes)
    {
      var ips: map<NodeId, IPNet>, used: seq<int> := CollectKept(nodes);
      var cur;
      used, cur, ok := ReserveUser(nodes, used);
      if !ok { return; }
      ghost var start := Start(ThePlan(), OctetSet(used), cur);
      ghost var filled := Fill(ipRange, nodes, ips, start.used, start.cur);
      for i := 0 to |nodes|
        invariant 2 <= cur <= 254
        invariant ThePlan() == start.plan
        invariant filled == Fill(ipRange, nodes[i..], ips, OctetSet(used), cur)
      {
        assert nodes[i..][0] == nodes[i] && nodes[i..][1..] == nodes[i + 1..];
        if nodes[i] !in ips {
          cur, ok := NextFreeIP(used, cur);
          if !ok { return; }
          UsedGrow(used, cur);
          used := used + [cur];
          ips := ips[nodes[i] := NodeSubnet(ipRange, cur)];
        }
      }
      nodesIPRange := ips;
      ok := true;
    }

    /** Gives a key to every listed node that has none. */
    method AssignNodesWGKey(nodes: seq<NodeId>, generated: NodeId -> Key)
      modifies this`keys
      ensures keys == KeysFor(old(keys), nodes, generated)
    {
      for i := 0 to |nodes|
        invariant keys == KeysFor(old(keys), nodes[..i], generated)
      {
        KeysForNext(old(keys), nodes[..i], nodes[i], generated);
        assert nodes[..i + 1] == nodes[..i] + [nodes[i]];
        if nodes[i] !in keys {
          keys := keys[nodes[i] := generated(nodes[i])];
        }
      }
      assert nodes[..|nodes|] == nodes;
    }

    /** Draws a port for every listed node. */
    method AssignPorts(nodes: seq<NodeId>, usedPorts: map<NodeId, seq<nat>>, draws: seq<nat>)
        returns (usedPorts': map<NodeId, seq<nat>>)
      requires GoodDraws(usedPorts, nodes, draws)
      modifies this`wgPort
      ensures wgPort == PortsFor(old(wgPort), nodes, draws)
      ensures usedPorts' == UsedAfter(usedPorts, nodes, draws)
    {
      usedPorts' := usedPorts;
      for i := 0 to |nodes|
        invariant wgPort == PortsFor(old(wgPort), nodes[..i], draws)
        invariant usedPorts' == UsedAfter(usedPorts, nodes[..i], draws)
      {
        assert nodes[..i + 1][..i] == nodes[..i];
        usedPorts' := usedPorts'[nodes[i] := PortsIn(usedPorts', nodes[i]) + [draws[i]]];
        wgPort := wgPort[nodes[i] := draws[i]];
      }
      assert nodes[..|nodes|] == nodes;
    }

    /** Makes sure there is a public node when one is needed. */
    method SettlePublicNode(eps: Endpoints, publicNode: NodeId, hidden: seq<NodeId>, open: seq<NodeId>,
        ipv4Node: NodeId, openHosts: map<NodeId, Host>)
      returns (found: bool, accessible: seq<NodeId>, hosts: map<NodeId, Host>)
      requires AllAnswered(nodes, eps) && hidden == HiddenOf(nodes, eps) && open == AccessibleOf(nodes, eps)
      requires ipv4Node == LastV4(nodes, eps) && openHosts == HostsOf(nodes, eps)
      modifies this`publicNodeID
      ensures Choose(addWGAccess, old(publicNodeID), nodes, eps, publicNode)
           == if found then Some(Choice(publicNodeID, accessible, hosts)) else None
      ensures !found ==> publicNodeID == old(publicNodeID)
    {
      accessible, hosts := open, openHosts;
      if addWGAccess || (|hidden| != 0 && |hidden| + |accessible| > 1) {
        if publicNodeID != 0 {
          if publicNodeID !in accessible {
            accessible := accessible + [publicNodeID];
          }
        } else if ipv4Node != 0 {
          publicNodeID := ipv4Node;
        } else if publicNode !in eps || publicNode == 0 {
          return false, accessible, hosts;
        } else {
          publicNodeID := publicNode;
          accessible := accessible + [publicNode];
          hosts := hosts[publicNode := Plain(eps[publicNode])];
        }
      }
      found := true;
    }

    /** Everything after the subnets: keys, ports, the user's configuration, the workloads. */
    method WriteConfigs(hidden: seq<NodeId>, c: Choice, w: World, ghost s: State)
      returns (dls: map<NodeId, Workload>, usedPorts: map<NodeId, seq<nat>>)
      requires TheState() == s.(plan := ThePlan(), public := c.public)
      requires GoodDraws(w.usedPorts, hidden + c.accessible, w.draws)
      requires Addressed(Settled(s, ThePlan(), hidden, c, w))
      modifies this`keys, this`wgPort, this`externalSK, this`accessWGConfig
      ensures var m := Settled(s, old(ThePlan()), hidden, c, w);
              TheState() == StateOf(s, m) && dls == Workloads(m)
      ensures usedPorts == UsedAfter(w.usedPorts, hidden + c.accessible, w.draws)
    {
      ghost var settled := Settled(s, ThePlan(), hidden, c, w);
      AssignNodesWGKey(hidden + c.accessible, w.generated);
      usedPorts := AssignPorts(hidden + c.accessible, w.usedPorts, w.draws);
      if addWGAccess && externalSK == 0 {
        externalSK := w.userKey;
      }
      var m := Net(ipRange, addWGAccess, externalIP, externalSK, hidden, c.accessible, publicNodeID, c.hosts,
                   nodesIPRange, keys, wgPort);
      assert m.keys == settled.keys && m.ports == settled.ports && m == settled;
      if addWGAccess {
        accessWGConfig := Some(UserConfigOf(m));
      }
      dls := WriteWorkloads(m);
    }

    /** Everything up to the subnets: the split of the nodes, the public node, a subnet for
        every node the configurations will mention. */
    method SettleSubnets(w: World) returns (error: Option<GenError>, hidden: seq<NodeId>, c: Choice)
      modifies this`publicNodeID, this`externalIP, this`nodesIPRange
      ensures error == Some(MissingEndpoint) ==> !AllAnswered(nodes, w.eps) && TheState() == old(TheState())
      ensures error == Some(NoPublicNode) ==>
                AllAnswered(nodes, w.eps) && ChoiceFor(old(TheState()), nodes, w).None? && TheState() == old(TheState())
      ensures error in {None, Some(NoFreeOctet)} ==>
                && AllAnswered(nodes, w.eps) && ChoiceFor(old(TheState()), nodes, w) == Some(c)
                && hidden == HiddenOf(nodes, w.eps)
                && Assign(old(ThePlan()), hidden + c.accessible) == Outcome(ThePlan(), error.None?)
                && TheState() == old(TheState()).(plan := ThePlan(), public := c.public)
    {
      c := Choice(0, [], map[]);
      var answered, open, ipv4Node, openHosts;
      answered, hidden, open, ipv4Node, openHosts := SplitNodes(nodes, w.eps);
      if !answered {
        return Some(MissingEndpoint), hidden, c;
      }
      var found, accessible, hosts := SettlePublicNode(w.eps, w.supplied, hidden, open, ipv4Node, openHosts);
      if !found {
        return Some(NoPublicNode), hidden, c;
      }
      c := Choice(publicNodeID, accessible, hosts);
      assert TheState() == old(TheState()).(public := c.public);
      var ok := AssignNodesIPs(hidden + accessible);
      error := if ok then None else Some(NoFreeOctet);
    }

    /** Settles the public node, the subnets, the keys and the ports, and writes one
        workload per node of the network, and one for a public node from outside it. */
    method GenerateDeployments(w: World)
      returns (r: Result<map<NodeId, Workload>, GenError>, usedPorts: map<NodeId, seq<nat>>)
      requires GoodWorld(TheState(), nodes, w)
      modifies this
      ensures nodes == old(nodes)
      ensures Generated(r, TheState(), usedPorts) == Generate(old(TheState()), nodes, w)
    {
      usedPorts := w.usedPorts;
      var error, hidden, c := SettleSubnets(w);
      if error.Some? {
        if error.value == NoFreeOctet { GenerateFails(old(TheState()), nodes, w, c, ThePlan()); }
        return Err(error.value), usedPorts;
      }
      GenerateSucceeds(old(TheState()), nodes, w, c, ThePlan());
      var dls;
      dls, usedPorts := WriteConfigs(hidden, c, w, old(TheState()));
      r := Ok(dls);
    }

    /** Reads back what the nodes run; data that does not parse leaves everything as it was. */
    method ReadNodesConfig(dls: map<NodeId, Workload>, parses: NodeId -> bool) returns (ok: bool)
      modifies this`keys, this`wgPort, this`nodesIPRange, this`addWGAccess, this`accessWGConfig
      ensures ok <==> forall n | n in dls :: parses(n)
      ensures !ok ==> TheState() == old(TheState())
      ensures ok ==> ReadOff(dls, keys, wgPort, nodesIPRange, addWGAccess)
      ensures ok ==> accessWGConfig == if addWGAccess then old(accessWGConfig) else None
    {
      var newKeys, newPorts, newRanges, wgAccess;
      ok, newKeys, newPorts, newRanges, wgAccess := ReadAll(dls, parses);
      if !ok { return; }
      keys, wgPort, nodesIPRange, addWGAccess := newKeys, newPorts, newRanges, wgAccess;
      if !wgAccess {
        accessWGConfig := None;
      }
    }
  }

  lemma UsedGrow(used: seq<int>, c: int)
    ensures OctetSet(used + [c]) == OctetSet(used) + {c}
  {
  }

  lemma ThirdsGrow(ips: map<NodeId, IPNet>, n: NodeId, net: IPNet)
    requires n !in ips
    ensures Thirds(ips[n := net]) == Thirds(ips) + {net.ip.c}
  {
    forall x | x in Thirds(ips) + {net.ip.c} ensures x in Thirds(ips[n := net]) {
      if x in Thirds(ips) {
        var m :| m in ips && ips[m].ip.c == x;
        assert ips[n := net][m].ip.c == x;
      } else {
        assert ips[n := net][n].ip.c == x;
      }
    }
  }
}
