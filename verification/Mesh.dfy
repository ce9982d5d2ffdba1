/** The WireGuard configurations of one network, and what they amount to when every
    party follows them: a packet goes to the one peer whose allowed addresses contain
    its destination, and is accepted only if the allowed addresses of the peer it came
    from contain its source ("Cryptokey Routing", section 2 of the WireGuard paper). */
module Mesh {
  import opened Wrappers
  import opened Addresses
  import opened Sequences
  import opened Subnets

  /** A private key; 0 is the all-zero key. */
  type Key = nat

  datatype PublicKey = Pub(secret: Key)

  /** What a node answers when asked for its public endpoint. */
  datatype NodeEndpoint = Unreachable | V4(addr: Addr) | V6(id: nat)

  type Endpoints = map<NodeId, NodeEndpoint>

  /** The host part of a peer endpoint: the text of an endpoint, plain or in square
      brackets, or the empty text for a node without an entry. */
  datatype Host = NoHost | Plain(of: NodeEndpoint) | Bracketed(of: NodeEndpoint)

  datatype Endpoint = NoEndpoint | At(host: Host, port: nat)

  /** The part of a peer entry that WireGuard reads. */
  datatype Link = Link(publicKey: PublicKey, endpoint: Endpoint, allowedIPs: seq<IPNet>)

  datatype Peer = Peer(subnet: IPNet, link: Link)

  /** The network workload sent to one node, with the metadata that repeats the user's
      subnet, key and access node. */
  datatype Workload = Workload(
    ipRange: IPNet, subnet: IPNet, privateKey: Key, listenPort: nat, peers: seq<Peer>,
    userSubnet: Option<IPNet>, userKey: Key, accessNode: NodeId)

  /** The configuration handed to the external user. */
  datatype UserConfig = UserConfig(address: Addr, privateKey: Key, link: Link)

  /** All that the configurations of one network are made from. */
  datatype Net = Net(
    ipRange: IPNet,
    access: bool,
    external: Option<IPNet>,
    externalKey: Key,
    hidden: seq<NodeId>,
    accessible: seq<NodeId>,
    public: NodeId,
    hosts: map<NodeId, Host>,
    ranges: map<NodeId, IPNet>,
    keys: map<NodeId, Key>,
    ports: map<NodeId, nat>)
  {
    predicate Has(n: NodeId) { n in hidden || n in accessible }

    function KeyOf(n: NodeId): Key { if n in keys then keys[n] else 0 }

    function PortOf(n: NodeId): nat { if n in ports then ports[n] else 0 }

    function HostOf(n: NodeId): Host { if n in hosts then hosts[n] else NoHost }
  }

  /** The members of a network: its nodes and, with access on, the external user. */
  datatype Party = Node(id: NodeId) | User

  predicate Member(m: Net, p: Party) {
    match p
    case Node(n) => m.Has(n)
    case User => m.access
  }

  /** Every node has a subnet, and so has the user when access is on. */
  ghost predicate Addressed(m: Net) {
    && (forall n | m.Has(n) :: n in m.ranges)
    && (m.access ==> m.external.Some?)
  }

  function Subnet(m: Net, p: Party): IPNet
    requires Addressed(m) && Member(m, p)
  {
    match p
    case Node(n) => m.ranges[n]
    case User => m.external.value
  }

  function Secret(m: Net, p: Party): Key {
    match p
    case Node(n) => m.KeyOf(n)
    case User => m.externalKey
  }

  function OwnNets(m: Net, p: Party): seq<IPNet>
    requires Addressed(m) && Member(m, p)
  {
    [Subnet(m, p), WgIP(Subnet(m, p))]
  }

  // ----- The generated peer entries -------------------------------------------

  function NetsOf(m: Net, nodes: seq<NodeId>): seq<IPNet>
    requires Addressed(m) && forall n | n in nodes :: m.Has(n)
    decreases |nodes|
  {
    if nodes == [] then []
    else NetsOf(m, nodes[..|nodes| - 1]) + OwnNets(m, Node(nodes[|nodes| - 1]))
  }

  /** What is reached only through the public node. */
  function NonAccessible(m: Net): seq<IPNet>
    requires Addressed(m)
  {
    NetsOf(m, m.hidden) + (if m.access then OwnNets(m, User) else [])
  }

  function EndpointOf(m: Net, n: NodeId): Endpoint {
    At(m.HostOf(n), m.PortOf(n))
  }

  /** The entry an accessible node has for another accessible node. */
  function OpenPeer(m: Net, n: NodeId): Peer
    requires Addressed(m) && m.Has(n)
  {
    Peer(m.ranges[n], Link(Pub(m.KeyOf(n)), EndpointOf(m, n),
      OwnNets(m, Node(n)) + (if n == m.public then NonAccessible(m) else [])))
  }

  /** The entry the public node has for a hidden node or for the user. */
  function ClosedPeer(m: Net, p: Party): Peer
    requires Addressed(m) && Member(m, p)
  {
    Peer(Subnet(m, p), Link(Pub(Secret(m, p)), NoEndpoint, OwnNets(m, p)))
  }

  /** The one link of a hidden node and of the user: everything through the public node. */
  function Gateway(m: Net): Link {
    Link(Pub(m.KeyOf(m.public)), EndpointOf(m, m.public), [m.ipRange, WG_NETWORK])
  }

  function OpenPeers(m: Net, n: NodeId, nodes: seq<NodeId>): seq<Peer>
    requires Addressed(m) && forall x | x in nodes :: m.Has(x)
    decreases |nodes|
  {
    if nodes == [] then []
    else
      var last := nodes[|nodes| - 1];
      OpenPeers(m, n, nodes[..|nodes| - 1]) + (if last == n then [] else [OpenPeer(m, last)])
  }

  function ClosedPeers(m: Net, nodes: seq<NodeId>): seq<Peer>
    requires Addressed(m) && forall x | x in nodes :: m.Has(x)
    decreases |nodes|
  {
    if nodes == [] then []
    else ClosedPeers(m, nodes[..|nodes| - 1]) + [ClosedPeer(m, Node(nodes[|nodes| - 1]))]
  }

  function PeersOfAccessible(m: Net, n: NodeId): seq<Peer>
    requires Addressed(m) && m.Has(n)
  {
    OpenPeers(m, n, m.accessible) +
    if n == m.public
    then (if m.access then [ClosedPeer(m, User)] else []) + ClosedPeers(m, m.hidden)
    else []
  }

  function PeersOfHidden(m: Net, n: NodeId): seq<Peer>
    requires Addressed(m) && m.Has(n)
  {
    if m.public != 0 then [Peer(m.ranges[n], Gateway(m))] else []
  }

  function WorkloadWith(m: Net, n: NodeId, peers: seq<Peer>): Workload
    requires Addressed(m) && m.Has(n)
  {
    Workload(m.ipRange, m.ranges[n], m.KeyOf(n), m.PortOf(n), peers, m.external, m.externalKey, m.public)
  }

  /** The workload of each node; hidden nodes are written last, so a node on both lists
      gets the hidden one. */
  function WorkloadOf(m: Net, n: NodeId): Workload
    requires Addressed(m) && m.Has(n)
  {
    WorkloadWith(m, n, if n in m.hidden then PeersOfHidden(m, n) else PeersOfAccessible(m, n))
  }

  function UserConfigOf(m: Net): UserConfig
    requires Addressed(m) && m.access
  {
    UserConfig(WgIP(m.external.value).ip, m.externalKey, Gateway(m))
  }

  function Workloads(m: Net): (r: map<NodeId, Workload>)
    requires Addressed(m)
    ensures r.Keys == Elems(m.hidden + m.accessible)
  {
    map n | n in Elems(m.hidden + m.accessible) :: WorkloadOf(m, n)
  }

  // ----- Following the configurations -----------------------------------------

  function Links(peers: seq<Peer>): (r: seq<Link>)
    ensures |r| == |peers| && forall i | 0 <= i < |r| :: r[i] == peers[i].link
  {
    seq(|peers|, i requires 0 <= i < |peers| => peers[i].link)
  }

  /** What is written for one network: a workload for every node, the configuration of the
      user if there is one, and the subnet the user was given. Each party knows its own
      part of it and nothing else. */
  datatype Written = Written(
    workloads: map<NodeId, Workload>,
    user: Option<UserConfig>,
    userSubnet: Option<IPNet>)
  {
    predicate In(p: Party) {
      match p
      case Node(n) => n in workloads
      case User => user.Some? && userSubnet.Some?
    }

    /** The private key a party is told to use. */
    function KeyOf(p: Party): Key
      requires In(p)
    {
      match p
      case Node(n) => workloads[n].privateKey
      case User => user.value.privateKey
    }

    function LinksOf(p: Party): seq<Link>
      requires In(p)
    {
      match p
      case Node(n) => Links(workloads[n].peers)
      case User => [user.value.link]
    }

    function SubnetOf(p: Party): IPNet
      requires In(p)
    {
      match p
      case Node(n) => workloads[n].subnet
      case User => userSubnet.value
    }

    /** The addresses of a party: its subnet and its address inside the tunnel, which the
        user is told and a node derives. */
    function Addresses(p: Party): seq<IPNet>
      requires In(p)
    {
      match p
      case Node(n) => [workloads[n].subnet, WgIP(workloads[n].subnet)]
      case User => [userSubnet.value, IPNet(user.value.address, M32)]
    }
  }

  ghost predicate Covers(nets: seq<IPNet>, x: Addr) {
    exists i | 0 <= i < |nets| :: Contains(nets[i], x)
  }

  /** Link `i` is the only one whose allowed addresses contain `dst`. */
  ghost predicate Picks(links: seq<Link>, i: nat, dst: Addr) {
    && i < |links|
    && Covers(links[i].allowedIPs, dst)
    && forall j | 0 <= j < |links| && Covers(links[j].allowedIPs, dst) :: j == i
  }

  /** There is one link for the key, and its allowed addresses contain `src`. */
  ghost predicate Accepts(links: seq<Link>, key: PublicKey, src: Addr) {
    exists i | 0 <= i < |links| ::
      && links[i].publicKey == key
      && Covers(links[i].allowedIPs, src)
      && forall j | 0 <= j < |links| && links[j].publicKey == key :: j == i
  }

  ghost predicate Owns(w: Written, p: Party, x: Addr)
    requires w.In(p)
  {
    Covers(w.Addresses(p), x)
  }

  /** `from` can only send the packet to `to`, which takes it. */
  ghost predicate Hop(w: Written, from: Party, to: Party, src: Addr, dst: Addr)
    requires w.In(from) && w.In(to)
  {
    && (exists i: nat :: Picks(w.LinksOf(from), i, dst) && w.LinksOf(from)[i].publicKey == Pub(w.KeyOf(to)))
    && Accepts(w.LinksOf(to), Pub(w.KeyOf(from)), src)
  }

  /** Along `path` every party but the last passes the packet on, and the last owns its
      destination. */
  ghost predicate Carries(w: Written, path: seq<Party>, src: Addr, dst: Addr) {
    && path != []
    && (forall i | 0 <= i < |path| :: w.In(path[i]))
    && (forall i | 0 <= i < |path| - 1 :: Hop(w, path[i], path[i + 1], src, dst) && !Owns(w, path[i], dst))
    && Owns(w, path[|path| - 1], dst)
  }

  /** `p` has an entry for the key of `q`. */
  ghost predicate Knows(w: Written, p: Party, q: Party)
    requires w.In(p) && w.In(q)
  {
    exists i | 0 <= i < |w.LinksOf(p)| :: w.LinksOf(p)[i].publicKey == Pub(w.KeyOf(q))
  }

  /** Straight across to a party with an entry, and otherwise through the public node. */
  ghost function Path(w: Written, public: NodeId, a: Party, b: Party): seq<Party>
    requires w.In(a) && w.In(b)
  {
    if Knows(w, a, b) then [a, b] else [a, Node(public), b]
  }

  ghost predicate DistinctKeys(w: Written) {
    forall p, q | w.In(p) && w.In(q) && p != q :: w.KeyOf(p) != w.KeyOf(q)
  }

  // ----- From the generator to what is written ------------------------------------

  function WrittenOf(m: Net): Written
    requires Addressed(m)
  {
    Written(Workloads(m), if m.access then Some(UserConfigOf(m)) else None, m.external)
  }

  /** What the generator means a party to have. */
  function LinksAt(m: Net, p: Party): seq<Link>
    requires Addressed(m) && Member(m, p)
  {
    match p
    case Node(n) => Links(WorkloadOf(m, n).peers)
    case User => [Gateway(m)]
  }

  ghost predicate Has(m: Net, p: Party, x: Addr)
    requires Addressed(m) && Member(m, p)
  {
    Covers(OwnNets(m, p), x)
  }

  /** Every party is told its own key, its own links and its own addresses. */
  lemma WrittenIs(m: Net, p: Party)
    requires Addressed(m)
    ensures WrittenOf(m).In(p) <==> Member(m, p)
    ensures Member(m, p) ==>
              && WrittenOf(m).KeyOf(p) == Secret(m, p)
              && WrittenOf(m).LinksOf(p) == LinksAt(m, p)
              && WrittenOf(m).SubnetOf(p) == Subnet(m, p)
              && WrittenOf(m).Addresses(p) == OwnNets(m, p)
  {
    if p.Node? { assert p.id in m.hidden + m.accessible <==> m.Has(p.id); }
  }

  // ----- What makes a network well formed ---------------------------------------

  predicate NeedsPublic(m: Net) {
    m.access || (m.hidden != [] && |m.hidden| + |m.accessible| > 1)
  }

  ghost predicate WellFormed(m: Net) {
    && Addressed(m)
    && NoRepeats(m.hidden) && NoRepeats(m.accessible)
    && (forall n | n in m.hidden :: n !in m.accessible)
    && Sound(Plan(m.ipRange, m.access, m.external, m.ranges))
    && m.ipRange.mask == M16
    && !(m.ipRange.ip.a == 100 && m.ipRange.ip.b == 64)
    && (forall p, q | Member(m, p) && Member(m, q) && p != q :: Secret(m, p) != Secret(m, q))
    && (NeedsPublic(m) ==> m.public in m.accessible && m.public != 0)
  }

  predicate Open(m: Net, p: Party) { p.Node? && p.id in m.accessible }

  /** Two parties with an entry for each other. */
  predicate Linked(m: Net, p: Party, q: Party) {
    p != q && ((Open(m, p) && Open(m, q)) || p == Node(m.public) || q == Node(m.public))
  }

  function NextHop(m: Net, p: Party, to: Party): Party {
    if Linked(m, p, to) then to else Node(m.public)
  }

  /** The addresses `p` allows its neighbour `q`. */
  function Allowed(m: Net, p: Party, q: Party): seq<IPNet>
    requires Addressed(m) && Member(m, q)
  {
    if !Open(m, p) then [m.ipRange, WG_NETWORK]
    else OwnNets(m, q) + (if q == Node(m.public) then NonAccessible(m) else [])
  }

  /** The endpoint `p` is given for its neighbour `q`. */
  function Told(m: Net, p: Party, q: Party): Endpoint {
    if !Open(m, p) then EndpointOf(m, m.public)
    else if Open(m, q) then EndpointOf(m, q.id)
    else NoEndpoint
  }

  // ----- Which addresses an entry covers ----------------------------------------

  lemma OwnedOnce(m: Net, p: Party, q: Party, x: Addr)
    requires WellFormed(m) && Member(m, p) && Member(m, q)
    requires Has(m, p, x) && Has(m, q, x)
    ensures p == q
  {
  }

  lemma OwnedInside(m: Net, p: Party, x: Addr)
    requires WellFormed(m) && Member(m, p) && Has(m, p, x)
    ensures Covers([m.ipRange, WG_NETWORK], x)
  {
    assert Inside(m.ipRange, Subnet(m, p));
    var nets := [m.ipRange, WG_NETWORK];
    assert Contains(nets[0], x) || Contains(nets[1], x);
  }

  lemma CoversSum(a: seq<IPNet>, b: seq<IPNet>, x: Addr)
    ensures Covers(a + b, x) <==> Covers(a, x) || Covers(b, x)
  {
    if Covers(a + b, x) {
      var i :| 0 <= i < |a + b| && Contains((a + b)[i], x);
      if i < |a| { assert Contains(a[i], x); } else { assert Contains(b[i - |a|], x); }
    }
    if Covers(a, x) {
      var i :| 0 <= i < |a| && Contains(a[i], x);
      assert Contains((a + b)[i], x);
    }
    if Covers(b, x) {
      var i :| 0 <= i < |b| && Contains(b[i], x);
      assert Contains((a + b)[|a| + i], x);
    }
  }

  lemma {:induction false} NetsOfCovers(m: Net, nodes: seq<NodeId>, x: Addr)
    requires Addressed(m) && forall n | n in nodes :: m.Has(n)
    ensures Covers(NetsOf(m, nodes), x) <==> exists n | n in nodes :: Has(m, Node(n), x)
    decreases |nodes|
  {
    if nodes != [] {
      var init, last := nodes[..|nodes| - 1], nodes[|nodes| - 1];
      assert nodes == init + [last];
      NetsOfCovers(m, init, x);
      CoversSum(NetsOf(m, init), OwnNets(m, Node(last)), x);
    }
  }

  lemma NonAccessibleCovers(m: Net, b: Party, x: Addr)
    requires WellFormed(m) && Member(m, b) && Has(m, b, x)
    ensures Covers(NonAccessible(m), x) <==> !Open(m, b)
  {
    NetsOfCovers(m, m.hidden, x);
    var tail := if m.access then OwnNets(m, User) else [];
    CoversSum(NetsOf(m, m.hidden), tail, x);
    forall n | n in m.hidden && Has(m, Node(n), x) ensures b == Node(n) {
      OwnedOnce(m, Node(n), b, x);
    }
    if m.access && Has(m, User, x) { OwnedOnce(m, User, b, x); }
    if b.Node? && !Open(m, b) { assert b.id in m.hidden; }
  }

  /** Among the neighbours of `p`, the one allowed an address owned by `b` is exactly the
      next hop towards `b`. */
  lemma AllowedIsNextHop(m: Net, p: Party, q: Party, b: Party, x: Addr)
    requires WellFormed(m) && Member(m, p) && Member(m, q) && Member(m, b)
    requires p != b && Linked(m, p, q) && Has(m, b, x)
    ensures Covers(Allowed(m, p, q), x) <==> q == NextHop(m, p, b)
  {
    if !Open(m, p) {
      OwnedInside(m, b, x);
    } else {
      var tail := if q == Node(m.public) then NonAccessible(m) else [];
      CoversSum(OwnNets(m, q), tail, x);
      NonAccessibleCovers(m, b, x);
      if Has(m, q, x) { OwnedOnce(m, q, b, x); }
    }
  }

  // ----- Which entries there are ------------------------------------------------

  /** The links of `p` are one for each of `others`, in order. */
  ghost predicate LinksTo(m: Net, p: Party, links: seq<Link>, others: seq<Party>)
    requires Addressed(m)
  {
    && |links| == |others|
    && (forall i | 0 <= i < |others| ::
          && Member(m, others[i])
          && links[i].publicKey == Pub(Secret(m, others[i]))
          && links[i].allowedIPs == Allowed(m, p, others[i])
          && links[i].endpoint == Told(m, p, others[i]))
  }

  function Others(n: NodeId, nodes: seq<NodeId>): (r: seq<Party>)
    ensures forall q :: q in r <==> q.Node? && q.id in nodes && q.id != n
    ensures NoRepeats(nodes) ==> forall i, j | 0 <= i < j < |r| :: r[i] != r[j]
    decreases |nodes|
  {
    if nodes == [] then []
    else
      var init, last := nodes[..|nodes| - 1], nodes[|nodes| - 1];
      assert nodes == init + [last];
      Others(n, init) + (if last == n then [] else [Node(last)])
  }

  function AsParties(nodes: seq<NodeId>): (r: seq<Party>)
    ensures |r| == |nodes| && forall i | 0 <= i < |r| :: r[i] == Node(nodes[i])
  {
    seq(|nodes|, i requires 0 <= i < |nodes| => Node(nodes[i]))
  }

  /** The neighbours of a party, in the order of its entries. */
  function Neighbours(m: Net, p: Party): seq<Party>
    requires Member(m, p)
  {
    if !Open(m, p) then (if m.public != 0 then [Node(m.public)] else [])
    else
      Others(p.id, m.accessible) +
      if p.id == m.public then (if m.access then [User] else []) + AsParties(m.hidden) else []
  }

  /** There is a public node to go through, or nobody who needs one. */
  predicate Joined(m: Net) {
    (m.public in m.accessible && m.public != 0) || (m.hidden == [] && !m.access)
  }

  lemma ManyAreJoined(m: Net, a: Party, b: Party)
    requires WellFormed(m) && Member(m, a) && Member(m, b) && a != b
    ensures Joined(m)
  {
  }

  lemma NeighboursAreLinked(m: Net, p: Party, q: Party)
    requires WellFormed(m) && Member(m, p) && Member(m, q) && Joined(m)
    ensures q in Neighbours(m, p) <==> Linked(m, p, q)
  {
    if q in AsParties(m.hidden) { assert q.Node? && q.id in m.hidden; }
    if q.Node? && q.id in m.hidden {
      var i :| 0 <= i < |m.hidden| && m.hidden[i] == q.id;
      assert AsParties(m.hidden)[i] == q;
    }
  }

  lemma NeighboursDistinct(m: Net, p: Party)
    requires WellFormed(m) && Member(m, p)
    ensures forall i, j | 0 <= i < j < |Neighbours(m, p)| :: Neighbours(m, p)[i] != Neighbours(m, p)[j]
  {
  }

  lemma {:induction false} OpenPeersMatch(m: Net, n: NodeId, nodes: seq<NodeId>)
    requires Addressed(m) && n in m.accessible && forall x | x in nodes :: x in m.accessible
    ensures LinksTo(m, Node(n), Links(OpenPeers(m, n, nodes)), Others(n, nodes))
    decreases |nodes|
  {
    if nodes != [] {
      var init := nodes[..|nodes| - 1];
      assert nodes == init + [nodes[|nodes| - 1]];
      OpenPeersMatch(m, n, init);
    }
  }

  lemma LinksToSum(m: Net, p: Party, a: seq<Link>, b: seq<Link>, x: seq<Party>, y: seq<Party>)
    requires Addressed(m) && LinksTo(m, p, a, x) && LinksTo(m, p, b, y)
    ensures LinksTo(m, p, a + b, x + y)
  {
  }

  lemma LinksSum(a: seq<Peer>, b: seq<Peer>)
    ensures Links(a + b) == Links(a) + Links(b)
  {
  }

  lemma ClosedPeerMatches(m: Net, q: Party)
    requires Addressed(m) && m.public in m.accessible
    requires Member(m, q) && !Open(m, q)
    ensures LinksTo(m, Node(m.public), Links([ClosedPeer(m, q)]), [q])
  {
  }

  lemma {:induction false} ClosedPeersMatch(m: Net, nodes: seq<NodeId>)
    requires Addressed(m) && m.public in m.accessible
    requires forall x | x in nodes :: x in m.hidden && x !in m.accessible
    ensures LinksTo(m, Node(m.public), Links(ClosedPeers(m, nodes)), AsParties(nodes))
    decreases |nodes|
  {
    if nodes != [] {
      var init, last := nodes[..|nodes| - 1], nodes[|nodes| - 1];
      assert nodes == init + [last];
      ClosedPeersMatch(m, init);
      ClosedPeerMatches(m, Node(last));
      LinksSum(ClosedPeers(m, init), [ClosedPeer(m, Node(last))]);
      LinksToSum(m, Node(m.public), Links(ClosedPeers(m, init)), Links([ClosedPeer(m, Node(last))]),
        AsParties(init), [Node(last)]);
      assert AsParties(nodes) == AsParties(init) + [Node(last)];
    }
  }

  /** The links a party has are those to its neighbours. */
  lemma LinksMatch(m: Net, p: Party)
    requires WellFormed(m) && Member(m, p) && Joined(m)
    ensures LinksTo(m, p, LinksAt(m, p), Neighbours(m, p))
  {
    if Open(m, p) {
      OpenPeersMatch(m, p.id, m.accessible);
      if p.id == m.public {
        PublicLinksMatch(m);
      } else {
        assert LinksAt(m, p) == Links(OpenPeers(m, p.id, m.accessible));
      }
    }
  }

  lemma PublicLinksMatch(m: Net)
    requires WellFormed(m) && m.public in m.accessible
    ensures LinksTo(m, Node(m.public), LinksAt(m, Node(m.public)), Neighbours(m, Node(m.public)))
  {
    var p := Node(m.public);
    var user := if m.access then [ClosedPeer(m, User)] else [];
    var parties := if m.access then [User] else [];
    OpenPeersMatch(m, m.public, m.accessible);
    ClosedPeersMatch(m, m.hidden);
    assert LinksTo(m, p, Links(user), parties) by {
      if m.access { ClosedPeerMatches(m, User); }
    }
    LinksSum(user, ClosedPeers(m, m.hidden));
    LinksToSum(m, p, Links(user), Links(ClosedPeers(m, m.hidden)), parties, AsParties(m.hidden));
    LinksSum(OpenPeers(m, m.public, m.accessible), user + ClosedPeers(m, m.hidden));
    LinksToSum(m, p, Links(OpenPeers(m, m.public, m.accessible)), Links(user + ClosedPeers(m, m.hidden)),
      Others(m.public, m.accessible), parties + AsParties(m.hidden));
  }

  // ----- Delivery ---------------------------------------------------------------

  /** The link `p` has for its neighbour `q`, and no other with that key. */
  lemma LinkFor(m: Net, p: Party, q: Party) returns (i: nat)
    requires WellFormed(m) && Member(m, p) && Member(m, q) && Joined(m) && Linked(m, p, q)
    ensures i < |LinksAt(m, p)| && i < |Neighbours(m, p)| && Neighbours(m, p)[i] == q
    ensures LinksAt(m, p)[i].publicKey == Pub(Secret(m, q))
    ensures LinksAt(m, p)[i].allowedIPs == Allowed(m, p, q) && LinksAt(m, p)[i].endpoint == Told(m, p, q)
    ensures forall j | 0 <= j < |LinksAt(m, p)| && LinksAt(m, p)[j].publicKey == Pub(Secret(m, q)) :: j == i
  {
    NeighboursAreLinked(m, p, q);
    LinksMatch(m, p);
    NeighboursDistinct(m, p);
    i :| 0 <= i < |Neighbours(m, p)| && Neighbours(m, p)[i] == q;
    forall j | 0 <= j < |LinksAt(m, p)| && LinksAt(m, p)[j].publicKey == Pub(Secret(m, q)) ensures j == i {
      assert Neighbours(m, p)[j] == q;
    }
  }

  lemma PicksNextHop(m: Net, p: Party, b: Party, dst: Addr) returns (i: nat)
    requires WellFormed(m) && Member(m, p) && Member(m, b) && Joined(m) && p != b && Has(m, b, dst)
    ensures Member(m, NextHop(m, p, b)) && Linked(m, p, NextHop(m, p, b))
    ensures Picks(LinksAt(m, p), i, dst)
    ensures LinksAt(m, p)[i].publicKey == Pub(Secret(m, NextHop(m, p, b)))
  {
    var q := NextHop(m, p, b);
    i := LinkFor(m, p, q);
    LinksMatch(m, p);
    AllowedIsNextHop(m, p, q, b, dst);
    forall j | 0 <= j < |LinksAt(m, p)| && Covers(LinksAt(m, p)[j].allowedIPs, dst) ensures j == i {
      var r := Neighbours(m, p)[j];
      NeighboursAreLinked(m, p, r);
      AllowedIsNextHop(m, p, r, b, dst);
    }
  }

  /** One hop towards `b` is taken, provided the receiver is the one through which it
      would answer the source's owner `a`. */
  lemma HopTaken(m: Net, p: Party, q: Party, a: Party, b: Party, src: Addr, dst: Addr)
    requires WellFormed(m) && Joined(m)
    requires Member(m, p) && Member(m, q) && Member(m, a) && Member(m, b)
    requires p != b && Has(m, b, dst) && q == NextHop(m, p, b)
    requires q != a && Has(m, a, src) && p == NextHop(m, q, a)
    ensures WrittenOf(m).In(p) && WrittenOf(m).In(q) && Hop(WrittenOf(m), p, q, src, dst)
  {
    var i := PicksNextHop(m, p, b, dst);
    var j := LinkFor(m, q, p);
    AllowedIsNextHop(m, q, p, a, src);
    assert Accepts(LinksAt(m, q), Pub(Secret(m, p)), src);
    WrittenIs(m, p);
    WrittenIs(m, q);
  }

  function PathOf(m: Net, a: Party, b: Party): seq<Party> {
    if Linked(m, a, b) then [a, b] else [a, Node(m.public), b]
  }

  lemma StrangersHaveNoLink(m: Net, a: Party, b: Party)
    requires WellFormed(m) && Member(m, a) && Member(m, b) && a != b && !Linked(m, a, b)
    ensures forall i | 0 <= i < |LinksAt(m, a)| :: LinksAt(m, a)[i].publicKey != Pub(Secret(m, b))
  {
    ManyAreJoined(m, a, b);
    LinksMatch(m, a);
    NeighboursAreLinked(m, a, b);
  }

  /** A party has an entry for its neighbours and for nobody else. */
  lemma PathIs(m: Net, a: Party, b: Party)
    requires WellFormed(m) && Member(m, a) && Member(m, b) && a != b
    ensures WrittenOf(m).In(a) && WrittenOf(m).In(b)
    ensures Knows(WrittenOf(m), a, b) <==> Linked(m, a, b)
    ensures Path(WrittenOf(m), m.public, a, b) == PathOf(m, a, b)
  {
    WrittenIs(m, a);
    WrittenIs(m, b);
    if Linked(m, a, b) {
      ManyAreJoined(m, a, b);
      var i := LinkFor(m, a, b);
    } else {
      StrangersHaveNoLink(m, a, b);
    }
  }

  /** Nobody but its owner has an address. */
  lemma NotMine(m: Net, p: Party, b: Party, dst: Addr)
    requires WellFormed(m) && Member(m, p) && Member(m, b) && p != b && Has(m, b, dst)
    ensures WrittenOf(m).In(p) && !Owns(WrittenOf(m), p, dst)
  {
    WrittenIs(m, p);
    if Has(m, p, dst) { OwnedOnce(m, p, b, dst); }
  }

  lemma Mine(m: Net, b: Party, dst: Addr)
    requires Addressed(m) && Member(m, b) && Has(m, b, dst)
    ensures WrittenOf(m).In(b) && Owns(WrittenOf(m), b, dst)
  {
    WrittenIs(m, b);
  }

  /** One more hop in front. */
  lemma Prepend(w: Written, p: Party, path: seq<Party>, src: Addr, dst: Addr)
    requires w.In(p) && Carries(w, path, src, dst)
    requires Hop(w, p, path[0], src, dst) && !Owns(w, p, dst)
    ensures Carries(w, [p] + path, src, dst)
  {
    var longer := [p] + path;
    forall i | 0 <= i < |longer| ensures longer[i] == if i == 0 then p else path[i - 1] {}
  }

  lemma Straight(w: Written, a: Party, b: Party, src: Addr, dst: Addr)
    requires w.In(a) && w.In(b)
    requires Hop(w, a, b, src, dst) && !Owns(w, a, dst) && Owns(w, b, dst)
    ensures Carries(w, [a, b], src, dst)
  {
    Prepend(w, a, [b], src, dst);
    assert [a] + [b] == [a, b];
  }

  lemma Across(w: Written, a: Party, p: Party, b: Party, src: Addr, dst: Addr)
    requires w.In(a) && w.In(p) && w.In(b)
    requires Hop(w, a, p, src, dst) && !Owns(w, a, dst)
    requires Hop(w, p, b, src, dst) && !Owns(w, p, dst) && Owns(w, b, dst)
    ensures Carries(w, [a, p, b], src, dst)
  {
    Straight(w, p, b, src, dst);
    Prepend(w, a, [p, b], src, dst);
    assert [a] + [p, b] == [a, p, b];
  }

  /** Between any two members of a well-formed network, any address of the one reaches any
      address of the other in at most two hops, the middle one always the public node. */
  lemma MeshDelivers(m: Net, a: Party, b: Party, src: Addr, dst: Addr)
    requires WellFormed(m) && Member(m, a) && Member(m, b) && a != b
    requires Has(m, a, src) && Has(m, b, dst)
    ensures Carries(WrittenOf(m), PathOf(m, a, b), src, dst)
  {
    ManyAreJoined(m, a, b);
    NotMine(m, a, b, dst);
    Mine(m, b, dst);
    if Linked(m, a, b) {
      HopTaken(m, a, b, a, b, src, dst);
      Straight(WrittenOf(m), a, b, src, dst);
    } else {
      var p := Node(m.public);
      HopTaken(m, a, p, a, b, src, dst);
      HopTaken(m, p, b, a, b, src, dst);
      NotMine(m, p, b, dst);
      Across(WrittenOf(m), a, p, b, src, dst);
    }
  }

  /** The path is forced: whatever the configurations carry from `a` to an address of `b`
      takes it. */
  lemma MeshPathIsForced(m: Net, a: Party, b: Party, path: seq<Party>, src: Addr, dst: Addr)
    requires WellFormed(m) && Member(m, a) && Member(m, b) && a != b && Has(m, b, dst)
    requires Carries(WrittenOf(m), path, src, dst) && path[0] == a
    ensures path == PathOf(m, a, b)
  {
    ManyAreJoined(m, a, b);
    forall i | 0 <= i < |path| ensures Onward(m, b, path, i) {
      if path[i] == b { EndsAt(m, b, path, i, src, dst); } else { HopAt(m, b, path, i, src, dst); }
    }
    OnwardIsPath(m, a, b, path);
  }

  predicate Onward(m: Net, b: Party, path: seq<Party>, i: nat)
    requires i < |path|
  {
    if path[i] == b then |path| == i + 1 else i + 1 < |path| && path[i + 1] == NextHop(m, path[i], b)
  }

  lemma OnwardIsPath(m: Net, a: Party, b: Party, path: seq<Party>)
    requires a != b && path != [] && path[0] == a && forall i | 0 <= i < |path| :: Onward(m, b, path, i)
    ensures path == PathOf(m, a, b)
  {
    assert Onward(m, b, path, 0) && Onward(m, b, path, 1);
    if path[1] != b { assert Onward(m, b, path, 2); }
  }

  /** A packet for `b` that is not there yet moves to the next hop. */
  lemma HopAt(m: Net, b: Party, path: seq<Party>, i: nat, src: Addr, dst: Addr)
    requires WellFormed(m) && Joined(m) && Member(m, b) && Has(m, b, dst)
    requires Carries(WrittenOf(m), path, src, dst) && i < |path| && path[i] != b
    ensures i + 1 < |path| && path[i + 1] == NextHop(m, path[i], b)
  {
    WrittenIs(m, path[i]);
    NotMine(m, path[i], b, dst);
    WrittenIs(m, path[i + 1]);
    HopIsNext(m, path[i], path[i + 1], b, src, dst);
  }

  lemma EndsAt(m: Net, b: Party, path: seq<Party>, i: nat, src: Addr, dst: Addr)
    requires Addressed(m) && Member(m, b) && Has(m, b, dst)
    requires Carries(WrittenOf(m), path, src, dst) && i < |path| && path[i] == b
    ensures |path| == i + 1
  {
    Mine(m, b, dst);
  }

  lemma HopIsNext(m: Net, p: Party, q: Party, b: Party, src: Addr, dst: Addr)
    requires WellFormed(m) && Joined(m) && Member(m, p) && Member(m, q) && Member(m, b)
    requires p != b && Has(m, b, dst)
    requires WrittenOf(m).In(p) && WrittenOf(m).In(q) && Hop(WrittenOf(m), p, q, src, dst)
    ensures q == NextHop(m, p, b)
  {
    WrittenIs(m, p);
    WrittenIs(m, q);
    var i := PicksNextHop(m, p, b, dst);
  }

  // ----- When the links can come up -----------------------------------------------

  /** The endpoint is the one `q` answered with: an IPv4 address, or an IPv6 address in
      brackets, without which its last group reads as a port. */
  predicate Dials(eps: Endpoints, q: Party, e: Endpoint) {
    && q.Node? && q.id in eps && e.At?
    && ((eps[q.id].V4? && e.host == Plain(eps[q.id])) || (eps[q.id].V6? && e.host == Bracketed(eps[q.id])))
  }

  /** `p` has an entry for `q` that it can dial, on the port `q` listens on. */
  ghost predicate CanDial(w: Written, eps: Endpoints, p: Party, q: Party)
    requires w.In(p) && w.In(q)
  {
    exists i | 0 <= i < |w.LinksOf(p)| ::
      && w.LinksOf(p)[i].publicKey == Pub(w.KeyOf(q))
      && Dials(eps, q, w.LinksOf(p)[i].endpoint)
      && w.LinksOf(p)[i].endpoint.port == w.workloads[q.id].listenPort
  }

  /** Wherever one party has an entry for another, one of the two can dial the other. */
  ghost predicate AllLinksComeUp(w: Written, eps: Endpoints) {
    forall p, q | w.In(p) && w.In(q) && p != q && Knows(w, p, q) :: CanDial(w, eps, p, q) || CanDial(w, eps, q, p)
  }

  lemma CanDialBy(w: Written, eps: Endpoints, p: Party, q: Party, i: nat)
    requires w.In(p) && w.In(q) && i < |w.LinksOf(p)| && w.LinksOf(p)[i].publicKey == Pub(w.KeyOf(q))
    requires forall j | 0 <= j < |w.LinksOf(p)| && w.LinksOf(p)[j].publicKey == Pub(w.KeyOf(q)) :: j == i
    requires var e := w.LinksOf(p)[i].endpoint; e.At? && q.Node? ==> e.port == w.workloads[q.id].listenPort
    ensures CanDial(w, eps, p, q) <==> Dials(eps, q, w.LinksOf(p)[i].endpoint)
  {
  }

  /** The one entry for the neighbour, as it is written. */
  lemma WrittenLinkFor(m: Net, p: Party, q: Party) returns (i: nat)
    requires WellFormed(m) && Joined(m) && Member(m, p) && Member(m, q) && Linked(m, p, q)
    ensures var w := WrittenOf(m);
            && w.In(p) && w.In(q) && i < |w.LinksOf(p)| && w.LinksOf(p)[i].publicKey == Pub(w.KeyOf(q))
            && w.LinksOf(p)[i].endpoint == Told(m, p, q) && w.LinksOf(p)[i].allowedIPs == Allowed(m, p, q)
            && (forall j | 0 <= j < |w.LinksOf(p)| && w.LinksOf(p)[j].publicKey == Pub(w.KeyOf(q)) :: j == i)
  {
    WrittenIs(m, p);
    WrittenIs(m, q);
    i := LinkFor(m, p, q);
  }

  lemma ToldPort(m: Net, p: Party, q: Party)
    requires Addressed(m) && Member(m, p) && Member(m, q) && (!Open(m, p) ==> q == Node(m.public))
    requires q.Node? && Told(m, p, q).At?
    ensures WrittenOf(m).In(q) && Told(m, p, q).port == WrittenOf(m).workloads[q.id].listenPort
  {
    WrittenIs(m, q);
  }

  lemma CanDialIff(m: Net, eps: Endpoints, p: Party, q: Party)
    requires WellFormed(m) && Joined(m) && Member(m, p) && Member(m, q) && Linked(m, p, q)
    ensures WrittenOf(m).In(p) && WrittenOf(m).In(q)
    ensures CanDial(WrittenOf(m), eps, p, q) <==> Dials(eps, q, Told(m, p, q))
  {
    var i := WrittenLinkFor(m, p, q);
    if q.Node? && Told(m, p, q).At? { ToldPort(m, p, q); }
    CanDialBy(WrittenOf(m), eps, p, q, i);
  }

  lemma LinkComesUp(m: Net, eps: Endpoints, p: Party, q: Party)
    requires WellFormed(m) && Joined(m) && Member(m, p) && Member(m, q) && Linked(m, p, q)
    requires forall n | n in m.accessible :: Dials(eps, Node(n), EndpointOf(m, n))
    ensures WrittenOf(m).In(p) && WrittenOf(m).In(q)
    ensures CanDial(WrittenOf(m), eps, p, q) || CanDial(WrittenOf(m), eps, q, p)
  {
    CanDialIff(m, eps, p, q);
    CanDialIff(m, eps, q, p);
  }

  lemma PublicLinkIff(m: Net, eps: Endpoints, p: Party)
    requires WellFormed(m) && Joined(m) && Member(m, p) && !Open(m, p)
    ensures var w, g := WrittenOf(m), Node(m.public);
            && w.In(p) && w.In(g) && Knows(w, p, g)
            && (CanDial(w, eps, p, g) || CanDial(w, eps, g, p) <==> Dials(eps, g, EndpointOf(m, m.public)))
  {
    CanDialIff(m, eps, p, Node(m.public));
    CanDialIff(m, eps, Node(m.public), p);
    PathIs(m, p, Node(m.public));
  }

  /** In a network that goes through a public node, every link can come up exactly when
      the generator had a host for that node. */
  lemma LinksComeUpIff(m: Net, eps: Endpoints)
    requires WellFormed(m) && Joined(m) && (m.hidden != [] || m.access)
    requires forall n | n in m.accessible && n != m.public :: Dials(eps, Node(n), EndpointOf(m, n))
    ensures AllLinksComeUp(WrittenOf(m), eps) <==> Dials(eps, Node(m.public), EndpointOf(m, m.public))
  {
    var w := WrittenOf(m);
    var closed := if m.access then User else Node(m.hidden[0]);
    PublicLinkIff(m, eps, closed);
    if Dials(eps, Node(m.public), EndpointOf(m, m.public)) {
      forall p, q | w.In(p) && w.In(q) && p != q && Knows(w, p, q)
        ensures CanDial(w, eps, p, q) || CanDial(w, eps, q, p)
      {
        WrittenIs(m, p);
        WrittenIs(m, q);
        PathIs(m, p, q);
        LinkComesUp(m, eps, p, q);
      }
    }
  }

  /** A public node that is itself hidden is cut off: its only entry is for its own key,
      so nothing it sends reaches anyone. */
  lemma HiddenPublicIsCutOff(m: Net, b: Party, src: Addr, dst: Addr)
    requires Addressed(m) && m.public in m.hidden && m.public != 0
    requires WrittenOf(m).In(b) && WrittenOf(m).KeyOf(b) != m.KeyOf(m.public)
    ensures WrittenOf(m).In(Node(m.public)) && !Hop(WrittenOf(m), Node(m.public), b, src, dst)
  {
    WrittenIs(m, Node(m.public));
  }

  // ----- What else the configurations say -------------------------------------------

  /** Some party has the key and the subnet of the entry. */
  ghost predicate Describes(m: Net, peer: Peer)
    requires Addressed(m)
  {
    exists q :: Member(m, q) && peer.link.publicKey == Pub(Secret(m, q)) && peer.subnet == Subnet(m, q)
  }

  lemma {:induction false} OpenPeersDescribe(m: Net, n: NodeId, nodes: seq<NodeId>)
    requires Addressed(m) && forall x | x in nodes :: m.Has(x)
    ensures forall peer | peer in OpenPeers(m, n, nodes) :: Describes(m, peer)
    decreases |nodes|
  {
    if nodes != [] {
      var last := nodes[|nodes| - 1];
      OpenPeersDescribe(m, n, nodes[..|nodes| - 1]);
      assert Member(m, Node(last)) && Describes(m, OpenPeer(m, last));
    }
  }

  lemma {:induction false} ClosedPeersDescribe(m: Net, nodes: seq<NodeId>)
    requires Addressed(m) && forall x | x in nodes :: m.Has(x)
    ensures forall peer | peer in ClosedPeers(m, nodes) :: Describes(m, peer)
    decreases |nodes|
  {
    if nodes != [] {
      var last := nodes[|nodes| - 1];
      ClosedPeersDescribe(m, nodes[..|nodes| - 1]);
      assert Member(m, Node(last)) && Describes(m, ClosedPeer(m, Node(last)));
    }
  }

  /** An entry of an accessible node has the subnet of the party whose key it has; the one
      entry of a hidden node, for the public node, has the hidden node's own. */
  lemma PeerSubnets(m: Net, n: NodeId, i: nat)
    requires Addressed(m) && m.Has(n) && DistinctKeys(WrittenOf(m))
    requires WrittenOf(m).In(Node(n)) && i < |WrittenOf(m).workloads[n].peers|
    ensures var w := WrittenOf(m); var peer := w.workloads[n].peers[i];
            if n in m.hidden then peer.subnet == w.workloads[n].subnet
            else forall q | w.In(q) && peer.link.publicKey == Pub(w.KeyOf(q)) :: peer.subnet == w.SubnetOf(q)
  {
    var w := WrittenOf(m);
    var peer := w.workloads[n].peers[i];
    if n !in m.hidden {
      OpenPeersDescribe(m, n, m.accessible);
      ClosedPeersDescribe(m, m.hidden);
      if m.access { assert Describes(m, ClosedPeer(m, User)); }
      assert Describes(m, peer);
      var owner :| Member(m, owner) && peer.link.publicKey == Pub(Secret(m, owner)) && peer.subnet == Subnet(m, owner);
      WrittenIs(m, owner);
      forall q | w.In(q) && peer.link.publicKey == Pub(w.KeyOf(q)) ensures q == owner {}
    }
  }

  /** The public node knows its user: exactly one of its entries has no endpoint and the key
      the user was told, and what that entry allows is the subnet and the address of the
      user; and the user's one entry is for the key of the public node. */
  ghost predicate KnowsUser(w: Written, public: NodeId) {
    && w.In(User) && w.In(Node(public))
    && w.user.value.link.publicKey == Pub(w.KeyOf(Node(public)))
    && exists i | 0 <= i < |w.LinksOf(Node(public))| ::
         var link := w.LinksOf(Node(public))[i];
         && link.publicKey == Pub(w.user.value.privateKey) && link.endpoint == NoEndpoint
         && link.allowedIPs == [w.userSubnet.value, IPNet(w.user.value.address, M32)]
         && forall j | 0 <= j < |w.LinksOf(Node(public))| && w.LinksOf(Node(public))[j].publicKey == link.publicKey ::
              j == i
  }

  lemma UserIsKnown(m: Net)
    requires WellFormed(m) && m.access
    ensures KnowsUser(WrittenOf(m), m.public)
  {
    var p := Node(m.public);
    WrittenIs(m, User);
    WrittenIs(m, p);
    var i := LinkFor(m, p, User);
    assert Allowed(m, p, User) == OwnNets(m, User);
  }

  // ----- An example ---------------------------------------------------------------

  /** A network of the user, the public node 1 and the hidden node 2. */
  const EXAMPLE := Net(
    IPNet(Addr(10, 20, 0, 0), M16), true, Some(IPNet(Addr(10, 20, 2, 0), M24)), 7,
    [2], [1], 1, map[1 := Plain(V4(Addr(1, 2, 3, 4)))],
    map[1 := IPNet(Addr(10, 20, 3, 0), M24), 2 := IPNet(Addr(10, 20, 4, 0), M24)],
    map[1 := 5, 2 := 6], map[1 := 1024, 2 := 1025])

  lemma ExampleIsWellFormed()
    ensures WellFormed(EXAMPLE)
  {
    var m := EXAMPLE;
    assert Addressed(m);
    assert Sound(Plan(m.ipRange, m.access, m.external, m.ranges));
  }

  /** The user reaches the hidden node, through the public one. */
  lemma ExampleDelivers()
    ensures WellFormed(EXAMPLE)
    ensures Carries(WrittenOf(EXAMPLE), [User, Node(1), Node(2)], Addr(100, 64, 20, 2), Addr(10, 20, 4, 9))
  {
    var m, src, dst := EXAMPLE, Addr(100, 64, 20, 2), Addr(10, 20, 4, 9);
    ExampleIsWellFormed();
    assert Contains(OwnNets(m, User)[1], src) && Contains(OwnNets(m, Node(2))[0], dst);
    MeshDelivers(m, User, Node(2), src, dst);
  }
}
