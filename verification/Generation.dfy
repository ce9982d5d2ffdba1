/** From a network description to the configurations of its parties: which nodes are
    hidden, which node is public, and when the result is a well-formed mesh. */
module Generation {
  import opened Wrappers
  import opened Addresses
  import opened Sequences
  import opened Subnets
  import opened Mesh

  predicate AllAnswered(nodes: seq<NodeId>, eps: Endpoints) {
    forall n | n in nodes :: n in eps
  }

  /** The nodes without a public endpoint, in order. */
  function HiddenOf(nodes: seq<NodeId>, eps: Endpoints): (r: seq<NodeId>)
    requires AllAnswered(nodes, eps)
    ensures forall n :: n in r <==> n in nodes && eps[n] == Unreachable
    ensures NoRepeats(nodes) ==> NoRepeats(r)
    decreases |nodes|
  {
    if nodes == [] then []
    else
      var init, last := nodes[..|nodes| - 1], nodes[|nodes| - 1];
      assert nodes == init + [last];
      HiddenOf(init, eps) + (if eps[last] == Unreachable then [last] else [])
  }

  function AccessibleOf(nodes: seq<NodeId>, eps: Endpoints): (r: seq<NodeId>)
    requires AllAnswered(nodes, eps)
    ensures forall n :: n in r <==> n in nodes && eps[n] != Unreachable
    ensures NoRepeats(nodes) ==> NoRepeats(r)
    decreases |nodes|
  {
    if nodes == [] then []
    else
      var init, last := nodes[..|nodes| - 1], nodes[|nodes| - 1];
      assert nodes == init + [last];
      AccessibleOf(init, eps) + (if eps[last] == Unreachable then [] else [last])
  }

  /** The last node with an IPv4 endpoint, or 0. */
  function LastV4(nodes: seq<NodeId>, eps: Endpoints): (r: NodeId)
    requires AllAnswered(nodes, eps)
    ensures r != 0 ==> r in nodes && eps[r].V4?
    decreases |nodes|
  {
    if nodes == [] then 0
    else
      var init, last := nodes[..|nodes| - 1], nodes[|nodes| - 1];
      assert nodes == init + [last];
      if eps[last].V4? then last else LastV4(init, eps)
  }

  function HostText(e: NodeEndpoint): Host {
    if e.V6? then Bracketed(e) else Plain(e)
  }

  function HostsOf(nodes: seq<NodeId>, eps: Endpoints): (r: map<NodeId, Host>)
    requires AllAnswered(nodes, eps)
    ensures r.Keys == Elems(AccessibleOf(nodes, eps))
    ensures forall n | n in r :: r[n] == HostText(eps[n])
    decreases |nodes|
  {
    if nodes == [] then map[]
    else
      var init, last := nodes[..|nodes| - 1], nodes[|nodes| - 1];
      assert nodes == init + [last];
      var hosts := HostsOf(init, eps);
      if eps[last] == Unreachable then hosts else hosts[last := HostText(eps[last])]
  }

  /** Which node is public, and what that adds to the accessible nodes. */
  datatype Choice = Choice(public: NodeId, accessible: seq<NodeId>, hosts: map<NodeId, Host>)

  /** A preset public node wins, then a node of the network with IPv4, then the node the
      caller supplied; None when there is none of them. */
  function Choose(access: bool, preset: NodeId, nodes: seq<NodeId>, eps: Endpoints, supplied: NodeId): Option<Choice>
    requires AllAnswered(nodes, eps)
  {
    var hidden, accessible, hosts := HiddenOf(nodes, eps), AccessibleOf(nodes, eps), HostsOf(nodes, eps);
    if !(access || (hidden != [] && |hidden| + |accessible| > 1)) then
      Some(Choice(preset, accessible, hosts))
    else if preset != 0 then
      Some(Choice(preset, if preset in accessible then accessible else accessible + [preset], hosts))
    else if LastV4(nodes, eps) != 0 then
      Some(Choice(LastV4(nodes, eps), accessible, hosts))
    else if supplied !in eps || supplied == 0 then
      None
    else
      Some(Choice(supplied, accessible + [supplied], hosts[supplied := Plain(eps[supplied])]))
  }

  // ----- Well-formedness --------------------------------------------------------

  /** The assumptions on what the caller passes: no node twice, and a public node that is
      not one of the network's hidden nodes. */
  predicate GoodNodes(preset: NodeId, nodes: seq<NodeId>, eps: Endpoints, supplied: NodeId) {
    && AllAnswered(nodes, eps)
    && NoRepeats(nodes) && 0 !in nodes
    && (preset in nodes ==> eps[preset] != Unreachable)
    && (supplied in nodes ==> LastV4(nodes, eps) != 0)
  }

  /** Whatever branch picks the public node, the lists stay distinct and disjoint, and a
      network that needs a public node has it among the accessible ones. */
  lemma ChoiceIsGood(access: bool, preset: NodeId, nodes: seq<NodeId>, eps: Endpoints, supplied: NodeId)
    requires GoodNodes(preset, nodes, eps, supplied)
    requires Choose(access, preset, nodes, eps, supplied).Some?
    ensures var c := Choose(access, preset, nodes, eps, supplied).value;
            var hidden := HiddenOf(nodes, eps);
            && NoRepeats(hidden) && NoRepeats(c.accessible)
            && (forall n | n in hidden :: n !in c.accessible)
            && (forall n | n in nodes :: n in hidden || n in c.accessible)
            && (access || (hidden != [] && |hidden| + |c.accessible| > 1) ==>
                  c.public in c.accessible && c.public != 0)
  {
  }

  /** The mesh of a network is well formed. */
  lemma NetIsWellFormed(m: Net, preset: NodeId, nodes: seq<NodeId>, eps: Endpoints, supplied: NodeId)
    requires GoodNodes(preset, nodes, eps, supplied)
    requires Choose(m.access, preset, nodes, eps, supplied)
          == Some(Choice(m.public, m.accessible, m.hosts)) && m.hidden == HiddenOf(nodes, eps)
    requires Sound(Plan(m.ipRange, m.access, m.external, m.ranges))
    requires m.ranges.Keys == Elems(m.hidden + m.accessible) && (m.access ==> m.external.Some?)
    requires m.ipRange.mask == M16 && !(m.ipRange.ip.a == 100 && m.ipRange.ip.b == 64)
    requires forall p, q | Member(m, p) && Member(m, q) && p != q :: Secret(m, p) != Secret(m, q)
    ensures WellFormed(m)
    ensures forall n | n in nodes :: m.Has(n)
  {
    assert Addressed(m) by {
      forall n | m.Has(n) ensures n in m.ranges { assert n in m.hidden + m.accessible; }
    }
    ChoiceIsGood(m.access, preset, nodes, eps, supplied);
  }

  lemma {:induction false} LastV4Iff(nodes: seq<NodeId>, eps: Endpoints)
    requires AllAnswered(nodes, eps) && 0 !in nodes
    ensures LastV4(nodes, eps) != 0 <==> exists n :: n in nodes && eps[n].V4?
    decreases |nodes|
  {
    if nodes != [] {
      var init, last := nodes[..|nodes| - 1], nodes[|nodes| - 1];
      assert nodes == init + [last];
      LastV4Iff(init, eps);
    }
  }

  /** No node after it has IPv4. */
  lemma {:induction false} LastV4IsLast(nodes: seq<NodeId>, eps: Endpoints) returns (i: nat)
    requires AllAnswered(nodes, eps) && LastV4(nodes, eps) != 0
    ensures i < |nodes| && nodes[i] == LastV4(nodes, eps) && forall j | i < j < |nodes| :: !eps[nodes[j]].V4?
    decreases |nodes|
  {
    i := |nodes| - 1;
    if !eps[nodes[i]].V4? { i := LastV4IsLast(nodes[..i], eps); }
  }

  /** The last node with IPv4. */
  predicate IsLastV4(nodes: seq<NodeId>, eps: Endpoints, n: NodeId)
    requires AllAnswered(nodes, eps)
  {
    exists i | 0 <= i < |nodes| :: nodes[i] == n && eps[n].V4? && forall j | i < j < |nodes| :: !eps[nodes[j]].V4?
  }

  lemma {:induction false} SplitSize(nodes: seq<NodeId>, eps: Endpoints)
    requires AllAnswered(nodes, eps)
    ensures |HiddenOf(nodes, eps)| + |AccessibleOf(nodes, eps)| == |nodes|
    decreases |nodes|
  {
    if nodes != [] { SplitSize(nodes[..|nodes| - 1], eps); }
  }

  /** There is a user, or some node can only be reached through another. */
  predicate PublicNeeded(access: bool, nodes: seq<NodeId>, eps: Endpoints)
    requires AllAnswered(nodes, eps)
  {
    access || (|nodes| > 1 && exists n :: n in nodes && eps[n] == Unreachable)
  }

  predicate HasV4(nodes: seq<NodeId>, eps: Endpoints)
    requires AllAnswered(nodes, eps)
  {
    exists n :: n in nodes && eps[n].V4?
  }

  /** There is no public node exactly when one is needed and none is preset, none of the
      network's own has IPv4, and none was supplied that answered. */
  lemma ChoiceFailsIff(access: bool, preset: NodeId, nodes: seq<NodeId>, eps: Endpoints, supplied: NodeId)
    requires AllAnswered(nodes, eps) && 0 !in nodes
    ensures Choose(access, preset, nodes, eps, supplied).None? <==>
              && PublicNeeded(access, nodes, eps) && preset == 0 && !HasV4(nodes, eps)
              && (supplied == 0 || supplied !in eps)
  {
    LastV4Iff(nodes, eps);
    SplitSize(nodes, eps);
    HiddenExists(nodes, eps);
  }

  lemma HiddenExists(nodes: seq<NodeId>, eps: Endpoints)
    requires AllAnswered(nodes, eps)
    ensures HiddenOf(nodes, eps) != [] <==> exists n :: n in nodes && eps[n] == Unreachable
  {
    if HiddenOf(nodes, eps) != [] { assert HiddenOf(nodes, eps)[0] in nodes; }
  }

  /** A preset public node stays; failing that the network's last node with IPv4 is taken,
      then the supplied one. */
  lemma PublicIs(access: bool, preset: NodeId, nodes: seq<NodeId>, eps: Endpoints, supplied: NodeId)
    requires AllAnswered(nodes, eps) && 0 !in nodes && Choose(access, preset, nodes, eps, supplied).Some?
    ensures var c := Choose(access, preset, nodes, eps, supplied).value;
            && (preset != 0 || !PublicNeeded(access, nodes, eps) ==> c.public == preset)
            && (PublicNeeded(access, nodes, eps) && preset == 0 && HasV4(nodes, eps) ==>
                  IsLastV4(nodes, eps, c.public))
            && (PublicNeeded(access, nodes, eps) && preset == 0 && !HasV4(nodes, eps) ==> c.public == supplied)
  {
    LastV4Iff(nodes, eps);
    SplitSize(nodes, eps);
    HiddenExists(nodes, eps);
    if LastV4(nodes, eps) != 0 { var i := LastV4IsLast(nodes, eps); }
  }

  /** At most the public node itself is added to the accessible ones, and nothing changes
      when it is one of them. */
  lemma AccessibleIs(access: bool, preset: NodeId, nodes: seq<NodeId>, eps: Endpoints, supplied: NodeId)
    requires AllAnswered(nodes, eps) && Choose(access, preset, nodes, eps, supplied).Some?
    ensures var c := Choose(access, preset, nodes, eps, supplied).value;
            && (c.accessible == AccessibleOf(nodes, eps) || c.accessible == AccessibleOf(nodes, eps) + [c.public])
            && (c.public in AccessibleOf(nodes, eps) && (preset != 0 || LastV4(nodes, eps) != 0) ==>
                  c.accessible == AccessibleOf(nodes, eps) && c.hosts == HostsOf(nodes, eps))
  {
  }

  lemma OwnHostsDial(nodes: seq<NodeId>, eps: Endpoints, n: NodeId)
    requires AllAnswered(nodes, eps)
    ensures n in AccessibleOf(nodes, eps) <==> n in HostsOf(nodes, eps)
    ensures n in HostsOf(nodes, eps) ==>
              HostsOf(nodes, eps)[n] in {Plain(eps[n]), Bracketed(eps[n])} && eps[n] != Unreachable
  {
  }

  /** The generator has a usable host for the public node exactly when that node is one of
      the network's own accessible nodes, or was the caller's and answered with IPv4: an IPv6
      answer of the caller's node is written without brackets. A preset public node outside
      the network has none. */
  lemma PublicHostIff(m: Net, preset: NodeId, nodes: seq<NodeId>, eps: Endpoints, supplied: NodeId)
    requires GoodNodes(preset, nodes, eps, supplied)
    requires Choose(m.access, preset, nodes, eps, supplied)
          == Some(Choice(m.public, m.accessible, m.hosts)) && m.hidden == HiddenOf(nodes, eps)
    requires NeedsPublic(m)
    ensures Dials(eps, Node(m.public), EndpointOf(m, m.public)) <==>
              if preset != 0 then preset in nodes
              else LastV4(nodes, eps) != 0 || (supplied in eps && eps[supplied].V4?)
  {
    OwnHostsDial(nodes, eps, m.public);
  }

  lemma OtherHostsDial(m: Net, preset: NodeId, nodes: seq<NodeId>, eps: Endpoints, supplied: NodeId, n: NodeId)
    requires GoodNodes(preset, nodes, eps, supplied)
    requires Choose(m.access, preset, nodes, eps, supplied)
          == Some(Choice(m.public, m.accessible, m.hosts)) && m.hidden == HiddenOf(nodes, eps)
    requires n in m.accessible && n != m.public
    ensures Dials(eps, Node(n), EndpointOf(m, n))
  {
    OwnHostsDial(nodes, eps, n);
  }
}
