/** What the generated deployments of a network guarantee as a whole. */
module Networks {
  import opened Wrappers
  import opened Addresses
  import opened Sequences
  import opened Subnets
  import opened Mesh
  import opened Generation
  import opened ZNets

  /** The caller's side of the bargain: addressing as every earlier successful call leaves
      it, a /16 that is not WireGuard's own, and usable public nodes. */
  predicate GoodRequest(s: State, nodes: seq<NodeId>, w: World) {
    && Sound(s.plan)
    && s.plan.ipRange.mask == M16
    && !(s.plan.ipRange.ip.a == 100 && s.plan.ipRange.ip.b == 64)
    && GoodNodes(s.public, nodes, w.eps, w.supplied)
    && GoodWorld(s, nodes, w)
  }

  /** What a successful generation hands out: the workloads it returns, and the user's
      configuration and subnet it leaves in the network when access is on. */
  function WrittenBy(g: Generated): Written
    requires g.result.Ok?
  {
    Written(g.result.value, if g.state.plan.access then g.state.config else None, g.state.plan.external)
  }

  /** The network behind a successful generation. */
  function NetFor(s: State, nodes: seq<NodeId>, w: World): (m: Net)
    requires GoodWorld(s, nodes, w) && Generate(s, nodes, w).result.Ok?
    ensures Addressed(m) && Generate(s, nodes, w).result == Ok(Workloads(m))
  {
    var c := ChoiceFor(s, nodes, w).value;
    var hidden := HiddenOf(nodes, w.eps);
    var plan := Assign(s.plan, hidden + c.accessible).plan;
    GenerateSucceeds(s, nodes, w, c, plan);
    Settled(s, plan, hidden, c, w)
  }

  lemma NetForIs(s: State, nodes: seq<NodeId>, w: World)
    requires GoodWorld(s, nodes, w) && Generate(s, nodes, w).result.Ok?
    ensures var m := NetFor(s, nodes, w);
            && Choose(m.access, s.public, nodes, w.eps, w.supplied) == Some(Choice(m.public, m.accessible, m.hosts))
            && m.hidden == HiddenOf(nodes, w.eps) && m.access == s.plan.access
            && m.externalKey == (if s.plan.access && s.userKey == 0 then w.userKey else s.userKey)
            && m.keys == KeysFor(s.keys, m.hidden + m.accessible, w.generated)
  {
    AssignServes(s.plan, HiddenOf(nodes, w.eps) + ChoiceFor(s, nodes, w).value.accessible);
  }

  /** The outputs are what the generator wrote for that network. */
  lemma WrittenByIs(s: State, nodes: seq<NodeId>, w: World)
    requires GoodWorld(s, nodes, w) && Generate(s, nodes, w).result.Ok?
    ensures var g, m := Generate(s, nodes, w), NetFor(s, nodes, w);
            && WrittenBy(g) == WrittenOf(m) && g.state == StateOf(s, m)
            && (forall p :: WrittenBy(g).In(p) <==> Member(m, p))
            && |w.draws| >= |m.hidden + m.accessible|
            && m.ports == PortsFor(s.ports, m.hidden + m.accessible, w.draws)
  {
    var m := NetFor(s, nodes, w);
    GenerateSucceeds(s, nodes, w, ChoiceFor(s, nodes, w).value,
      Assign(s.plan, HiddenOf(nodes, w.eps) + ChoiceFor(s, nodes, w).value.accessible).plan);
    forall p ensures WrittenOf(m).In(p) <==> Member(m, p) {
      WrittenIs(m, p);
    }
  }

  lemma SecretsDiffer(m: Net)
    requires Addressed(m) && DistinctKeys(WrittenOf(m))
    ensures forall p, q | Member(m, p) && Member(m, q) && p != q :: Secret(m, p) != Secret(m, q)
  {
    forall p, q | Member(m, p) && Member(m, q) && p != q ensures Secret(m, p) != Secret(m, q) {
      WrittenIs(m, p);
      WrittenIs(m, q);
    }
  }

  lemma GeneratedIsWellFormed(s: State, nodes: seq<NodeId>, w: World)
    requires GoodRequest(s, nodes, w) && Generate(s, nodes, w).result.Ok?
    requires DistinctKeys(WrittenBy(Generate(s, nodes, w)))
    ensures WellFormed(NetFor(s, nodes, w))
    ensures forall n | n in nodes :: NetFor(s, nodes, w).Has(n)
  {
    var c := ChoiceFor(s, nodes, w).value;
    var hidden := HiddenOf(nodes, w.eps);
    AssignKeepsSound(s.plan, hidden + c.accessible);
    AssignServes(s.plan, hidden + c.accessible);
    WrittenByIs(s, nodes, w);
    SecretsDiffer(NetFor(s, nodes, w));
    NetIsWellFormed(NetFor(s, nodes, w), s.public, nodes, w.eps, w.supplied);
  }

  /** There are configurations for every node asked for, for the user exactly with access
      on, and for nobody else but the public node. */
  lemma GeneratedForAll(s: State, nodes: seq<NodeId>, w: World)
    requires GoodWorld(s, nodes, w) && Generate(s, nodes, w).result.Ok? && 0 !in nodes
    ensures var g := Generate(s, nodes, w); var net := WrittenBy(g);
            && (forall n :: net.In(Node(n)) ==> n in nodes || n == g.state.public)
            && (forall n | n in nodes :: net.In(Node(n)))
            && (net.In(User) <==> s.plan.access)
  {
    NetForIs(s, nodes, w);
    WrittenByIs(s, nodes, w);
    AccessibleIs(s.plan.access, s.public, nodes, w.eps, w.supplied);
  }

  /** The separately written configurations form one network: between any two of its nodes
      and the external user, any address of the one reaches any address of the other, on a
      forced path that is direct or goes through the public node. */
  lemma GeneratedNetworkDelivers(s: State, nodes: seq<NodeId>, w: World, a: Party, b: Party, src: Addr, dst: Addr)
    requires GoodRequest(s, nodes, w) && Generate(s, nodes, w).result.Ok?
    requires var net := WrittenBy(Generate(s, nodes, w));
             DistinctKeys(net) && net.In(a) && net.In(b) && a != b && Owns(net, a, src) && Owns(net, b, dst)
    ensures var g := Generate(s, nodes, w); var net := WrittenBy(g); var path := Path(net, g.state.public, a, b);
            && Carries(net, path, src, dst)
            && forall other | Carries(net, other, src, dst) && other[0] == a :: other == path
  {
    var m := NetFor(s, nodes, w);
    GeneratedIsWellFormed(s, nodes, w);
    WrittenByIs(s, nodes, w);
    WrittenIs(m, a);
    WrittenIs(m, b);
    PathIs(m, a, b);
    MeshDelivers(m, a, b, src, dst);
    forall other | Carries(WrittenOf(m), other, src, dst) && other[0] == a ensures other == PathOf(m, a, b) {
      MeshPathIsForced(m, a, b, other, src, dst);
    }
  }

  /** The links of a network that needs a public node can all come up exactly when: a preset
      public node is one of the network's nodes; or, with none preset, some node has IPv4 or
      the supplied node answered with IPv4. */
  lemma GeneratedLinksComeUpIff(s: State, nodes: seq<NodeId>, w: World)
    requires GoodRequest(s, nodes, w) && Generate(s, nodes, w).result.Ok?
    requires DistinctKeys(WrittenBy(Generate(s, nodes, w))) && PublicNeeded(s.plan.access, nodes, w.eps)
    ensures AllLinksComeUp(WrittenBy(Generate(s, nodes, w)), w.eps) <==>
            if s.public != 0 then s.public in nodes
            else HasV4(nodes, w.eps) || (w.supplied in w.eps && w.eps[w.supplied].V4?)
  {
    GeneratedIsWellFormed(s, nodes, w);
    NetForIs(s, nodes, w);
    WrittenByIs(s, nodes, w);
    LastV4Iff(nodes, w.eps);
    PublicIsNeeded(NetFor(s, nodes, w), s.public, nodes, w.eps, w.supplied);
    ChosenLinksComeUpIff(NetFor(s, nodes, w), s.public, nodes, w.eps, w.supplied);
  }

  lemma PublicIsNeeded(m: Net, preset: NodeId, nodes: seq<NodeId>, eps: Endpoints, supplied: NodeId)
    requires AllAnswered(nodes, eps) && PublicNeeded(m.access, nodes, eps)
    requires Choose(m.access, preset, nodes, eps, supplied)
          == Some(Choice(m.public, m.accessible, m.hosts)) && m.hidden == HiddenOf(nodes, eps)
    ensures NeedsPublic(m)
  {
    SplitSize(nodes, eps);
    HiddenExists(nodes, eps);
  }

  lemma ChosenLinksComeUpIff(m: Net, preset: NodeId, nodes: seq<NodeId>, eps: Endpoints, supplied: NodeId)
    requires WellFormed(m) && NeedsPublic(m) && GoodNodes(preset, nodes, eps, supplied)
    requires Choose(m.access, preset, nodes, eps, supplied)
          == Some(Choice(m.public, m.accessible, m.hosts)) && m.hidden == HiddenOf(nodes, eps)
    ensures AllLinksComeUp(WrittenOf(m), eps) <==>
            if preset != 0 then preset in nodes
            else LastV4(nodes, eps) != 0 || (supplied in eps && eps[supplied].V4?)
  {
    forall n | n in m.accessible && n != m.public ensures Dials(eps, Node(n), EndpointOf(m, n)) {
      OtherHostsDial(m, preset, nodes, eps, supplied, n);
    }
    LinksComeUpIff(m, eps);
    PublicHostIff(m, preset, nodes, eps, supplied);
  }

  // ----- What each configuration says ----------------------------------------------------

  /** With access on, the public node and the user know each other: the one entry with the
      user's key allows exactly the user's subnet and the address the user was told. */
  lemma GeneratedUserIsKnown(s: State, nodes: seq<NodeId>, w: World)
    requires GoodRequest(s, nodes, w) && Generate(s, nodes, w).result.Ok? && s.plan.access
    requires DistinctKeys(WrittenBy(Generate(s, nodes, w)))
    ensures KnowsUser(WrittenBy(Generate(s, nodes, w)), Generate(s, nodes, w).state.public)
  {
    GeneratedIsWellFormed(s, nodes, w);
    NetForIs(s, nodes, w);
    WrittenByIs(s, nodes, w);
    UserIsKnown(NetFor(s, nodes, w));
  }

  function KeyAfter(keys: map<NodeId, Key>, generated: NodeId -> Key, n: NodeId): Key {
    if n in keys then keys[n] else generated(n)
  }

  function UserKeyAfter(s: State, w: World): Key {
    if s.userKey == 0 then w.userKey else s.userKey
  }

  /** A node, and the user, keeps the key it has and otherwise gets the one generated for
      it; the network stores what it hands out. */
  lemma GeneratedKeys(s: State, nodes: seq<NodeId>, w: World, n: NodeId)
    requires GoodWorld(s, nodes, w) && Generate(s, nodes, w).result.Ok?
    ensures var g := Generate(s, nodes, w); var net := WrittenBy(g);
            && (net.In(Node(n)) ==>
                  && n in g.state.keys
                  && net.KeyOf(Node(n)) == g.state.keys[n] == KeyAfter(s.keys, w.generated, n))
            && (net.In(User) ==> net.KeyOf(User) == g.state.userKey == UserKeyAfter(s, w))
            && (n in s.keys ==> n in g.state.keys && g.state.keys[n] == s.keys[n])
  {
    var m := NetFor(s, nodes, w);
    NetForIs(s, nodes, w);
    WrittenByIs(s, nodes, w);
    WrittenIs(m, Node(n));
    if m.Has(n) { assert n in m.hidden + m.accessible; }
  }

  /** All keys differ when the stored ones and the generated ones do. */
  lemma GeneratedKeysDiffer(s: State, nodes: seq<NodeId>, w: World)
    requires GoodWorld(s, nodes, w) && Generate(s, nodes, w).result.Ok?
    requires forall n: NodeId, k: NodeId | n != k ::
               KeyAfter(s.keys, w.generated, n) != KeyAfter(s.keys, w.generated, k)
    requires forall n: NodeId :: KeyAfter(s.keys, w.generated, n) != UserKeyAfter(s, w)
    ensures DistinctKeys(WrittenBy(Generate(s, nodes, w)))
  {
    var net := WrittenBy(Generate(s, nodes, w));
    forall p, q | net.In(p) && net.In(q) && p != q ensures net.KeyOf(p) != net.KeyOf(q) {
      GeneratedKeys(s, nodes, w, if p.Node? then p.id else 0);
      GeneratedKeys(s, nodes, w, if q.Node? then q.id else 0);
    }
  }

  lemma {:induction false} PortDrawn(ports: map<NodeId, nat>, all: seq<NodeId>, draws: seq<nat>, i: nat)
    requires |draws| >= |all| && i < |all| && all[i] !in all[i + 1..]
    ensures all[i] in PortsFor(ports, all, draws) && PortsFor(ports, all, draws)[all[i]] == draws[i]
    decreases |all|
  {
    var k := |all| - 1;
    if i < k {
      assert all[..k][i + 1..] == all[i + 1..][..k - i - 1];
      assert all[i + 1..][k - i - 1] == all[k];
      PortDrawn(ports, all[..k], draws, i);
    }
  }

  /** The port a node listens on is the one drawn at its position, which was free on the node;
      the network stores it. */
  lemma GeneratedPorts(s: State, nodes: seq<NodeId>, w: World, i: nat)
    requires GoodRequest(s, nodes, w) && Generate(s, nodes, w).result.Ok?
    requires i < |HiddenOf(nodes, w.eps) + ChoiceFor(s, nodes, w).value.accessible|
    ensures var all := HiddenOf(nodes, w.eps) + ChoiceFor(s, nodes, w).value.accessible;
            var g := Generate(s, nodes, w);
            && |w.draws| > i && all[i] in g.result.value && all[i] in g.state.ports
            && g.result.value[all[i]].listenPort == g.state.ports[all[i]] == w.draws[i]
            && 1024 <= w.draws[i] < 32768
            && w.draws[i] !in PortsIn(w.usedPorts, all[i]) && w.draws[i] in PortsIn(g.usedPorts, all[i])
  {
    NetForIs(s, nodes, w);
    WrittenByIs(s, nodes, w);
    ChoiceIsGood(s.plan.access, s.public, nodes, w.eps, w.supplied);
    PortWritten(NetFor(s, nodes, w), s.ports, w.usedPorts, w.draws, i);
    PortIsNew(w.usedPorts, HiddenOf(nodes, w.eps) + ChoiceFor(s, nodes, w).value.accessible, w.draws, i);
  }

  /** A drawn port was free on its node and is in use afterwards. */
  lemma {:induction false} PortIsNew(used: map<NodeId, seq<nat>>, all: seq<NodeId>, draws: seq<nat>, i: nat)
    requires GoodDraws(used, all, draws) && i < |all|
    ensures draws[i] !in PortsIn(used, all[i]) && draws[i] in PortsIn(UsedAfter(used, all, draws), all[i])
    ensures forall n, x | x in PortsIn(used, n) :: x in PortsIn(UsedAfter(used, all, draws), n)
    decreases |all|
  {
    var k := |all| - 1;
    PortsStay(used, all[..k], draws);
    if i < k { PortIsNew(used, all[..k], draws, i); }
  }

  lemma {:induction false} PortsStay(used: map<NodeId, seq<nat>>, all: seq<NodeId>, draws: seq<nat>)
    requires |draws| >= |all|
    ensures forall n, x | x in PortsIn(used, n) :: x in PortsIn(UsedAfter(used, all, draws), n)
    decreases |all|
  {
    if all != [] { PortsStay(used, all[..|all| - 1], draws); }
  }

  lemma NoRepeatsSum(a: seq<NodeId>, b: seq<NodeId>)
    requires NoRepeats(a) && NoRepeats(b) && forall n | n in a :: n !in b
    ensures NoRepeats(a + b)
  {
    forall i, j | 0 <= i < j < |a + b| ensures (a + b)[i] != (a + b)[j] {
      if i < |a| <= j { assert (a + b)[i] in a && (a + b)[j] in b; }
    }
  }

  lemma PortWritten(m: Net, ports: map<NodeId, nat>, used: map<NodeId, seq<nat>>, draws: seq<nat>, i: nat)
    requires var all := m.hidden + m.accessible;
             GoodDraws(used, all, draws) && i < |all| && m.ports == PortsFor(ports, all, draws)
    requires NoRepeats(m.hidden) && NoRepeats(m.accessible) && forall n | n in m.hidden :: n !in m.accessible
    ensures var n := (m.hidden + m.accessible)[i]; n in m.ports && m.ports[n] == m.PortOf(n) == draws[i]
    ensures 1024 <= draws[i] < 32768
  {
    var all := m.hidden + m.accessible;
    NoRepeatsSum(m.hidden, m.accessible);
    PortDrawn(ports, all, draws, i);
    DrawInRange(used, all, draws, i);
  }

  lemma {:induction false} DrawInRange(used: map<NodeId, seq<nat>>, all: seq<NodeId>, draws: seq<nat>, i: nat)
    requires GoodDraws(used, all, draws) && i < |all|
    ensures 1024 <= draws[i] < 32768
    decreases |all|
  {
    if i < |all| - 1 { DrawInRange(used, all[..|all| - 1], draws, i); }
  }

  /** Every workload names the network's range, its node's subnet as stored, and the user's
      subnet, key and way in; with access on these are those of the user's configuration. */
  lemma GeneratedMetadata(s: State, nodes: seq<NodeId>, w: World, n: NodeId)
    requires GoodWorld(s, nodes, w) && Generate(s, nodes, w).result.Ok?
    requires n in Generate(s, nodes, w).result.value
    ensures var g := Generate(s, nodes, w); var x := g.result.value[n];
            && x.ipRange == g.state.plan.ipRange == s.plan.ipRange
            && n in g.state.plan.ranges && x.subnet == g.state.plan.ranges[n]
            && (n in s.plan.ranges ==> x.subnet == s.plan.ranges[n])
            && x.userSubnet == g.state.plan.external && x.userKey == g.state.userKey && x.accessNode == g.state.public
            && (s.plan.access ==>
                  && WrittenBy(g).In(User) && x.userKey == WrittenBy(g).KeyOf(User)
                  && (var ip := g.state.plan.external.value.ip;
                      WrittenBy(g).user.value.address == Addr(100, 64, ip.b, ip.c))
                  && x.userSubnet == Some(WrittenBy(g).SubnetOf(User)))
  {
    var m := NetFor(s, nodes, w);
    var all := HiddenOf(nodes, w.eps) + ChoiceFor(s, nodes, w).value.accessible;
    AssignServes(s.plan, all);
    NetForIs(s, nodes, w);
    WrittenByIs(s, nodes, w);
    WrittenIs(m, Node(n));
    if n in s.plan.ranges { assert n in Kept(s.plan.ranges, all); }
  }

  /** An entry of an accessible node has the subnet of the party whose key it has; the one
      entry of a hidden node has that node's own. */
  lemma GeneratedPeerSubnets(s: State, nodes: seq<NodeId>, w: World, n: NodeId, i: nat)
    requires GoodWorld(s, nodes, w) && Generate(s, nodes, w).result.Ok?
    requires DistinctKeys(WrittenBy(Generate(s, nodes, w)))
    requires n in Generate(s, nodes, w).result.value && i < |Generate(s, nodes, w).result.value[n].peers|
    ensures var net := WrittenBy(Generate(s, nodes, w)); var peer := net.workloads[n].peers[i];
            if n in HiddenOf(nodes, w.eps) then peer.subnet == net.workloads[n].subnet
            else forall q | net.In(q) && peer.link.publicKey == Pub(net.KeyOf(q)) :: peer.subnet == net.SubnetOf(q)
  {
    NetForIs(s, nodes, w);
    WrittenByIs(s, nodes, w);
    WrittenIs(NetFor(s, nodes, w), Node(n));
    PeerSubnets(NetFor(s, nodes, w), n, i);
  }

  /** Generation fails exactly when a node did not answer, a public node is needed and there
      is none, or more octets are needed than are free; in this order. */
  lemma GenerationFailsIff(s: State, nodes: seq<NodeId>, w: World)
    requires GoodWorld(s, nodes, w) && 0 !in nodes
    ensures var r := Generate(s, nodes, w).result;
            if exists n :: n in nodes && n !in w.eps then r == Err(MissingEndpoint)
            else if PublicNeeded(s.plan.access, nodes, w.eps) && s.public == 0 && !HasV4(nodes, w.eps)
                    && (w.supplied == 0 || w.supplied !in w.eps)
            then r == Err(NoPublicNode)
            else
              && ChoiceFor(s, nodes, w).Some?
              && var all := HiddenOf(nodes, w.eps) + ChoiceFor(s, nodes, w).value.accessible;
                 if Needed(s.plan, all) > |Free(Taken(s.plan, all))| then r == Err(NoFreeOctet) else r.Ok?
  {
    if AllAnswered(nodes, w.eps) {
      ChoiceFailsIff(s.plan.access, s.public, nodes, w.eps, w.supplied);
      if ChoiceFor(s, nodes, w).Some? {
        AssignSucceedsIff(s.plan, HiddenOf(nodes, w.eps) + ChoiceFor(s, nodes, w).value.accessible);
      }
    }
  }

  // ----- Links that cannot come up -----------------------------------------------------

  /** A network with user access and nothing stored. */
  function NewNetwork(public: NodeId): State {
    State(Plan(IPNet(Addr(10, 20, 0, 0), M16), true, None, map[]), public, map[], map[], 0, None)
  }

  function SomeWorld(eps: Endpoints, supplied: NodeId): World {
    World(eps, map[], supplied, (n: NodeId) => n + 100, 9, [2000, 2001])
  }

  lemma OneHidden(eps: Endpoints)
    requires 2 in eps && eps[2] == Unreachable
    ensures HiddenOf([2], eps) == [2] && AccessibleOf([2], eps) == []
    ensures LastV4([2], eps) == 0 && HostsOf([2], eps) == map[]
  {
    assert [2][..0] == [];
    assert HiddenOf([], eps) == [] && AccessibleOf([], eps) == [] && HostsOf([], eps) == map[];
  }

  lemma TwoDraws()
    ensures GoodDraws(map[], [2, 1], [2000, 2001])
  {
    assert [2, 1][..1] == [2] && [2][..0] == [];
    assert GoodDraws(map[], [], [2000, 2001]) && UsedAfter(map[], [], [2000, 2001]) == map[];
    assert GoodDraws(map[], [2], [2000, 2001]);
  }

  lemma TwoAssigned(public: NodeId)
    ensures Assign(NewNetwork(public).plan, [2, 1]).ok
  {
    var p := NewNetwork(public).plan;
    assert Kept(p.ranges, [2, 1]) == map[] && Thirds(map[]) == {};
    assert NextFree({}, 2) == Some(2) && NextFree({2}, 2) == Some(3) && NextFree({2} + {3}, 3) == Some(4);
    assert [2, 1][1..] == [1] && [1][1..] == [];
    var one := Give(map[], 2, NodeSubnet(p.ipRange, 3));
    assert Fill(p.ipRange, [1], one, {2} + {3}, 3) == Some(Give(one, 1, NodeSubnet(p.ipRange, 4)));
    assert Fill(p.ipRange, [2, 1], map[], {2}, 2).Some?;
  }

  predicate Outsider(public: NodeId, eps: Endpoints, supplied: NodeId) {
    2 in eps && eps[2] == Unreachable && supplied != 2 && (public == 1 || (public == 0 && supplied == 1 && 1 in eps))
  }

  lemma OutsiderIsChosen(public: NodeId, eps: Endpoints, supplied: NodeId)
    requires Outsider(public, eps, supplied)
    ensures var s, w := NewNetwork(public), SomeWorld(eps, supplied);
            && ChoiceFor(s, [2], w).Some? && HiddenOf([2], eps) == [2]
            && var c := ChoiceFor(s, [2], w).value; c.public == 1 && c.accessible == [1]
  {
    OneHidden(eps);
  }

  lemma OutsiderIsGood(public: NodeId, eps: Endpoints, supplied: NodeId)
    requires Outsider(public, eps, supplied)
    ensures GoodRequest(NewNetwork(public), [2], SomeWorld(eps, supplied))
  {
    OneHidden(eps);
    OutsiderIsChosen(public, eps, supplied);
    TwoDraws();
    assert [2] + [1] == [2, 1];
  }

  lemma TwoKeysDiffer(s: State, nodes: seq<NodeId>, w: World)
    requires GoodWorld(s, nodes, w) && Generate(s, nodes, w).result.Ok? && s.keys == map[] && s.userKey == 0
    requires w.userKey == 9 && forall n: NodeId :: w.generated(n) == n + 100
    ensures DistinctKeys(WrittenBy(Generate(s, nodes, w)))
  {
    forall n: NodeId, k: NodeId | n != k ensures KeyAfter(s.keys, w.generated, n) != KeyAfter(s.keys, w.generated, k) {
      assert w.generated(n) == n + 100 && w.generated(k) == k + 100;
    }
    GeneratedKeysDiffer(s, nodes, w);
  }

  /** The hidden node 2 goes through node 1, which is not one of the network's own, be it
      preset or supplied. */
  lemma OutsiderIsPublic(public: NodeId, eps: Endpoints, supplied: NodeId)
    requires Outsider(public, eps, supplied)
    ensures var s, w := NewNetwork(public), SomeWorld(eps, supplied);
            && GoodRequest(s, [2], w) && Generate(s, [2], w).result.Ok?
            && PublicNeeded(s.plan.access, [2], w.eps) && DistinctKeys(WrittenBy(Generate(s, [2], w)))
  {
    var s, w := NewNetwork(public), SomeWorld(eps, supplied);
    OutsiderIsChosen(public, eps, supplied);
    OutsiderIsGood(public, eps, supplied);
    TwoAssigned(public);
    var c := ChoiceFor(s, [2], w).value;
    assert [2] + [1] == [2, 1];
    GenerateSucceeds(s, [2], w, c, Assign(s.plan, [2, 1]).plan);
    TwoKeysDiffer(s, [2], w);
  }

  /** A preset public node outside the network: nothing names a host for it. */
  lemma PresetOutsiderHasNoHost()
    ensures var s, w := NewNetwork(1), SomeWorld(map[2 := Unreachable], 0);
            && GoodRequest(s, [2], w) && Generate(s, [2], w).result.Ok?
            && !AllLinksComeUp(WrittenBy(Generate(s, [2], w)), w.eps)
  {
    OutsiderIsPublic(1, map[2 := Unreachable], 0);
    GeneratedLinksComeUpIff(NewNetwork(1), [2], SomeWorld(map[2 := Unreachable], 0));
  }

  /** A supplied public node that answers with IPv6: its address is written without brackets. */
  lemma SuppliedV6HasNoHost(v6: NodeEndpoint)
    requires v6.V6?
    ensures var s, w := NewNetwork(0), SomeWorld(map[2 := Unreachable, 1 := v6], 1);
            && GoodRequest(s, [2], w) && Generate(s, [2], w).result.Ok?
            && !AllLinksComeUp(WrittenBy(Generate(s, [2], w)), w.eps)
            && WrittenBy(Generate(s, [2], w)).user.Some?
            && WrittenBy(Generate(s, [2], w)).user.value.link.endpoint.host == Plain(v6)
  {
    var eps := map[2 := Unreachable, 1 := v6];
    var s, w := NewNetwork(0), SomeWorld(eps, 1);
    OutsiderIsPublic(0, eps, 1);
    GeneratedLinksComeUpIff(s, [2], w);
    OneHidden(eps);
    NetForIs(s, [2], w);
    WrittenByIs(s, [2], w);
  }

  // ----- Reading back -------------------------------------------------------------

  lemma {:induction false} OpenPeersAreOpen(m: Net, n: NodeId, nodes: seq<NodeId>)
    requires Addressed(m) && forall x | x in nodes :: m.Has(x)
    ensures forall p | p in OpenPeers(m, n, nodes) :: p.link.endpoint != NoEndpoint
    decreases |nodes|
  {
    if nodes != [] { OpenPeersAreOpen(m, n, nodes[..|nodes| - 1]); }
  }

  lemma {:induction false} ClosedPeersAreClosed(m: Net, nodes: seq<NodeId>)
    requires Addressed(m) && forall x | x in nodes :: m.Has(x)
    ensures |ClosedPeers(m, nodes)| == |nodes|
    ensures forall p | p in ClosedPeers(m, nodes) :: p.link.endpoint == NoEndpoint
    decreases |nodes|
  {
    if nodes != [] { ClosedPeersAreClosed(m, nodes[..|nodes| - 1]); }
  }

  lemma ClosedPeerIff(m: Net, n: NodeId)
    requires Addressed(m) && m.Has(n)
    ensures HasClosedPeer(WorkloadOf(m, n)) <==>
              n !in m.hidden && n == m.public && (m.access || m.hidden != [])
  {
    OpenPeersAreOpen(m, n, m.accessible);
    ClosedPeersAreClosed(m, m.hidden);
    var open, user, closed := OpenPeers(m, n, m.accessible),
      if m.access then [ClosedPeer(m, User)] else [], ClosedPeers(m, m.hidden);
    var peers := WorkloadOf(m, n).peers;
    if n !in m.hidden && n == m.public {
      assert peers == open + (user + closed);
      if m.access { assert peers[|open|] == user[0]; }
      else if m.hidden != [] { assert peers[|open|] == closed[0] && closed[0] in closed; }
    } else if n !in m.hidden {
      assert peers == open;
    }
    assert n !in m.hidden && n == m.public && !m.access && m.hidden == [] ==> peers == open;
  }

  /** Reading back what was generated gives every node its key, port and subnet again. The
      access flag comes back true exactly when it was true, or when some node is hidden
      behind an accessible public node: the user and hidden nodes look alike. */
  lemma ReadBack(m: Net)
    requires WellFormed(m)
    ensures forall n | m.Has(n) ::
              && Workloads(m)[n].privateKey == m.KeyOf(n)
              && Workloads(m)[n].listenPort == m.PortOf(n)
              && Workloads(m)[n].subnet == m.ranges[n]
    ensures (exists n | n in Workloads(m) :: HasClosedPeer(Workloads(m)[n])) <==>
              m.access || (m.hidden != [] && m.public in m.accessible)
  {
    forall n | n in Workloads(m)
      ensures HasClosedPeer(Workloads(m)[n]) <==>
                n !in m.hidden && n == m.public && (m.access || m.hidden != [])
    {
      ClosedPeerIff(m, n);
    }
    if m.access || (m.hidden != [] && m.public in m.accessible) {
      assert m.public in Workloads(m);
    }
    forall n | m.Has(n) ensures n in Workloads(m) {
      assert n in m.hidden + m.accessible;
    }
  }
}
