/** How a network hands out a /24 to each of its nodes and to its external user:
    the values computed by ZNet.AssignNodesIPs and ZNet.InvalidateBrokenAttributes,
    and what every run of them keeps. */
module Subnets {
  import opened Wrappers
  import opened Addresses

  type NodeId = nat

  /** The addressing part of a network. */
  datatype Plan = Plan(
    ipRange: IPNet,
    access: bool,
    external: Option<IPNet>,
    ranges: map<NodeId, IPNet>)

  // ----- Allocation ---------------------------------------------------------

  predicate HostOctet(x: int) {
    2 <= x <= 254
  }

  /** The octets a call may hand out. */
  function Free(used: set<int>): (r: set<int>)
    ensures forall x :: x in r <==> 2 <= x <= 254 && x !in used
  {
    (set x | 2 <= x <= 254 && HostOctet(x)) - used
  }

  function Elems(nodes: seq<NodeId>): (r: set<NodeId>)
    ensures forall n :: n in r <==> n in nodes
  {
    set n | n in nodes
  }

  /** The first unused octet from `start` on, unless 254 is passed. */
  function NextFree(used: set<int>, start: int): (r: Option<int>)
    requires 2 <= start <= 255
    ensures r.Some? ==> start <= r.value <= 254 && r.value !in used
    ensures r.Some? ==> forall x :: start <= x < r.value ==> x in used
    ensures r.None? ==> forall x :: start <= x <= 254 ==> x in used
    decreases 255 - start
  {
    if start <= 254 && start in used then NextFree(used, start + 1)
    else if start == 255 then None
    else Some(start)
  }

  /** The fourth octet of a node subnet is the third octet of the network range;
      that of the user subnet is the fourth octet of the network range. */
  function NodeSubnet(ipRange: IPNet, c: Octet): IPNet {
    IPNet(Addr(ipRange.ip.a, ipRange.ip.b, c, ipRange.ip.c), M24)
  }

  function UserSubnet(ipRange: IPNet, c: Octet): IPNet {
    IPNet(Addr(ipRange.ip.a, ipRange.ip.b, c, ipRange.ip.d), M24)
  }

  /** The subnets of the nodes that stay. */
  function Kept(ranges: map<NodeId, IPNet>, nodes: seq<NodeId>): (r: map<NodeId, IPNet>)
    ensures forall n :: n in r <==> n in ranges && n in nodes
    ensures forall n | n in r :: r[n] == ranges[n]
  {
    map n | n in ranges && n in nodes :: ranges[n]
  }

  /** The third octets in use. */
  function Thirds(ranges: map<NodeId, IPNet>): (r: set<int>)
    ensures forall n | n in ranges :: ranges[n].ip.c in r
  {
    set n | n in ranges :: ranges[n].ip.c
  }

  function Give(ips: map<NodeId, IPNet>, n: NodeId, net: IPNet): (r: map<NodeId, IPNet>)
    ensures r.Keys == ips.Keys + {n}
  {
    ips[n := net]
  }

  /** The subnets after serving `nodes` in order, or None when octets run out. */
  function Fill(ipRange: IPNet, nodes: seq<NodeId>, ips: map<NodeId, IPNet>, used: set<int>, cur: int)
    : Option<map<NodeId, IPNet>>
    requires 2 <= cur <= 254
    decreases |nodes|
  {
    if nodes == [] then Some(ips)
    else if nodes[0] in ips then Fill(ipRange, nodes[1..], ips, used, cur)
    else match NextFree(used, cur)
      case None => None
      case Some(c) => Fill(ipRange, nodes[1..], Give(ips, nodes[0], NodeSubnet(ipRange, c)), used + {c}, c)
  }

  datatype Outcome = Outcome(plan: Plan, ok: bool)

  /** Where a call starts filling: the plan with the user's subnet settled, the octets
      in use, and the first octet to try. */
  datatype Start = Start(plan: Plan, used: set<int>, cur: int)

  function Begin(p: Plan, nodes: seq<NodeId>): (r: Option<Start>)
    ensures r.Some? ==> 2 <= r.value.cur <= 254
  {
    var used := Thirds(Kept(p.ranges, nodes));
    if p.access && p.external.None? then
      match NextFree(used, 2)
      case None => None
      case Some(c) => Some(Start(p.(external := Some(UserSubnet(p.ipRange, c))), used + {c}, c))
    else
      Some(Start(p, if p.access then used + {p.external.value.ip.c} else used, 2))
  }

  /** What AssignNodesIPs leaves behind: on failure the node subnets stay as they
      were, but a user subnet chosen on the way is kept. */
  function Assign(p: Plan, nodes: seq<NodeId>): Outcome {
    match Begin(p, nodes)
    case None => Outcome(p, false)
    case Some(s) => Finish(s.plan, Fill(p.ipRange, nodes, Kept(p.ranges, nodes), s.used, s.cur))
  }

  function Finish(p: Plan, filled: Option<map<NodeId, IPNet>>): Outcome {
    match filled
    case None => Outcome(p, false)
    case Some(ips) => Outcome(p.(ranges := ips), true)
  }

  // ----- Separation ---------------------------------------------------------

  predicate Separate(external: Option<IPNet>, ranges: map<NodeId, IPNet>) {
    && (forall m, n | m in ranges && n in ranges && m != n :: ranges[m].ip.c != ranges[n].ip.c)
    && (external.Some? ==> forall n | n in ranges :: ranges[n].ip.c != external.value.ip.c)
  }

  predicate Inside(ipRange: IPNet, net: IPNet) {
    net.mask == M24 && net.ip.a == ipRange.ip.a && net.ip.b == ipRange.ip.b
  }

  predicate AllInside(p: Plan) {
    && (forall n | n in p.ranges :: Inside(p.ipRange, p.ranges[n]))
    && (p.external.Some? ==> Inside(p.ipRange, p.external.value))
  }

  /** What holds of a network before and after every successful assignment. */
  predicate Sound(p: Plan) {
    && Separate(p.external, p.ranges)
    && AllInside(p)
    && (!p.access ==> p.external.None?)
  }

  predicate Packed(used: set<int>, cur: int) {
    forall x :: 2 <= x < cur ==> x in used
  }

  /** The nodes still without a subnet. */
  function Missing(nodes: seq<NodeId>, served: set<NodeId>): (r: set<NodeId>)
    ensures forall n :: n in r <==> n in nodes && n !in served
  {
    Elems(nodes) - served
  }

  lemma MissingHeadServed(nodes: seq<NodeId>, served: set<NodeId>)
    requires nodes != [] && nodes[0] in served
    ensures Missing(nodes, served) == Missing(nodes[1..], served)
  {
  }

  lemma MissingHead(nodes: seq<NodeId>, served: set<NodeId>)
    requires nodes != [] && nodes[0] !in served
    ensures Missing(nodes, served) == Missing(nodes[1..], served + {nodes[0]}) + {nodes[0]}
    ensures |Missing(nodes, served)| == |Missing(nodes[1..], served + {nodes[0]})| + 1
  {
  }

  lemma FreeShrinks(used: set<int>, c: int)
    requires c in Free(used)
    ensures Free(used + {c}) == Free(used) - {c}
    ensures |Free(used + {c})| == |Free(used)| - 1
  {
  }

  lemma NoneFree(used: set<int>, cur: int)
    requires 2 <= cur <= 254 && Packed(used, cur) && NextFree(used, cur).None?
    ensures Free(used) == {}
  {
  }

  /** Serving succeeds exactly when the nodes without a subnet are no more than the
      free octets. */
  lemma {:induction false} FillSucceedsIff(ipRange: IPNet, nodes: seq<NodeId>, ips: map<NodeId, IPNet>, used: set<int>,
        cur: int)
    requires 2 <= cur <= 254 && Packed(used, cur)
    ensures Fill(ipRange, nodes, ips, used, cur).Some? <==> |Missing(nodes, ips.Keys)| <= |Free(used)|
    decreases |nodes|
  {
    if nodes == [] {
      assert Missing(nodes, ips.Keys) == {};
    } else if nodes[0] in ips {
      MissingHeadServed(nodes, ips.Keys);
      FillSucceedsIff(ipRange, nodes[1..], ips, used, cur);
    } else {
      MissingHead(nodes, ips.Keys);
      match NextFree(used, cur) {
        case None => NoneFree(used, cur);
        case Some(c) =>
          var ips' := Give(ips, nodes[0], NodeSubnet(ipRange, c));
          FreeShrinks(used, c);
          FillSucceedsIff(ipRange, nodes[1..], ips', used + {c}, c);
      }
    }
  }

  /** `r` extends `ips` by one subnet per node of `extra`, each on an octet that was free
      and that no other new node has. */
  predicate Extends(r: map<NodeId, IPNet>, ipRange: IPNet, ips: map<NodeId, IPNet>, extra: set<NodeId>,
        used: set<int>) {
    && r.Keys == ips.Keys + extra
    && (forall n | n in ips :: r[n] == ips[n])
    && (forall n | n in extra :: r[n].ip.c in Free(used) && r[n] == NodeSubnet(ipRange, r[n].ip.c))
    && (forall m, n | m in extra && n in extra && m != n :: r[m].ip.c != r[n].ip.c)
  }

  lemma {:induction false} FillExtends(ipRange: IPNet, nodes: seq<NodeId>, ips: map<NodeId, IPNet>, used: set<int>,
        cur: int)
    requires 2 <= cur <= 254 && Packed(used, cur)
    requires Fill(ipRange, nodes, ips, used, cur).Some?
    ensures Extends(Fill(ipRange, nodes, ips, used, cur).value, ipRange, ips, Missing(nodes, ips.Keys), used)
    decreases |nodes|
  {
    if nodes == [] {
      assert Missing(nodes, ips.Keys) == {};
    } else if nodes[0] in ips {
      MissingHeadServed(nodes, ips.Keys);
      FillExtends(ipRange, nodes[1..], ips, used, cur);
    } else {
      MissingHead(nodes, ips.Keys);
      var c := NextFree(used, cur).value;
      var ips' := Give(ips, nodes[0], NodeSubnet(ipRange, c));
      FillExtends(ipRange, nodes[1..], ips', used + {c}, c);
      ExtendsBack(Fill(ipRange, nodes, ips, used, cur).value, ipRange, ips, nodes[0], c, Missing(nodes[1..], ips'.Keys),
          used);
    }
  }

  lemma ExtendsBack(r: map<NodeId, IPNet>, ipRange: IPNet, ips: map<NodeId, IPNet>, n: NodeId, c: Octet,
        extra: set<NodeId>, used: set<int>)
    requires n !in ips && c in Free(used) && n !in extra
    requires Extends(r, ipRange, Give(ips, n, NodeSubnet(ipRange, c)), extra, used + {c})
    ensures Extends(r, ipRange, ips, extra + {n}, used)
  {
  }

  // ----- One call -----------------------------------------------------------

  /** The octets taken by what a call keeps. */
  function Taken(p: Plan, nodes: seq<NodeId>): set<int> {
    Thirds(Kept(p.ranges, nodes)) + (if p.access && p.external.Some? then {p.external.value.ip.c} else {})
  }

  function Unserved(p: Plan, nodes: seq<NodeId>): set<NodeId> {
    Missing(nodes, p.ranges.Keys)
  }

  function Needed(p: Plan, nodes: seq<NodeId>): nat {
    |Unserved(p, nodes)| + (if p.access && p.external.None? then 1 else 0)
  }

  lemma MissingOfKept(p: Plan, nodes: seq<NodeId>)
    ensures Missing(nodes, Kept(p.ranges, nodes).Keys) == Unserved(p, nodes)
    ensures Kept(p.ranges, nodes).Keys + Unserved(p, nodes) == Elems(nodes)
  {
  }

  lemma BeginTakes(p: Plan, nodes: seq<NodeId>)
    ensures match Begin(p, nodes)
            case None => p.access && p.external.None? && Free(Taken(p, nodes)) == {}
            case Some(s) =>
              && Packed(s.used, s.cur)
              && s.plan == p.(external := s.plan.external)
              && if p.access && p.external.None?
                 then s.cur in Free(Taken(p, nodes)) && s.used == Taken(p, nodes) + {s.cur}
                      && s.plan.external == Some(UserSubnet(p.ipRange, s.cur))
                 else s.used == Taken(p, nodes) && s.plan == p
  {
  }

  /** A call fails exactly when more octets are needed than remain free. */
  lemma AssignSucceedsIff(p: Plan, nodes: seq<NodeId>)
    ensures Assign(p, nodes).ok <==> Needed(p, nodes) <= |Free(Taken(p, nodes))|
  {
    BeginTakes(p, nodes);
    MissingOfKept(p, nodes);
    match Begin(p, nodes) {
      case None =>
      case Some(s) =>
        FillSucceedsIff(p.ipRange, nodes, Kept(p.ranges, nodes), s.used, s.cur);
        if p.access && p.external.None? { FreeShrinks(Taken(p, nodes), s.cur); }
    }
  }

  /** A successful call serves exactly the given nodes, and the user when access is on;
      nodes and users that had a subnet keep it, and everyone else gets a /24 of the
      network range on an octet of 2..254 that nothing kept uses, all different. */
  lemma AssignServes(p: Plan, nodes: seq<NodeId>)
    requires Assign(p, nodes).ok
    ensures var q := Assign(p, nodes).plan;
            && q == p.(external := q.external, ranges := q.ranges)
            && q.ranges.Keys == Elems(nodes)
            && (p.external.Some? || !p.access ==> q.external == p.external)
            && (p.access ==> q.external.Some?)
            && (p.access && p.external.None? ==>
                  && q.external.value == UserSubnet(p.ipRange, q.external.value.ip.c)
                  && q.external.value.ip.c in Free(Taken(p, nodes))
                  && forall n | n in Unserved(p, nodes) :: q.ranges[n].ip.c != q.external.value.ip.c)
            && Extends(q.ranges, p.ipRange, Kept(p.ranges, nodes), Unserved(p, nodes), Taken(p, nodes))
  {
    BeginTakes(p, nodes);
    MissingOfKept(p, nodes);
    var s := Begin(p, nodes).value;
    var q := Assign(p, nodes).plan;
    FillExtends(p.ipRange, nodes, Kept(p.ranges, nodes), s.used, s.cur);
    ExtendsLess(q.ranges, p.ipRange, Kept(p.ranges, nodes), Unserved(p, nodes), Taken(p, nodes), s.used);
  }

  /** The subnet a node or the user newly gets: a /24 inside the range with a third octet in
      2..254, and a fourth octet that is the range's third for a node and its fourth for the
      user. */
  lemma NewSubnets(p: Plan, nodes: seq<NodeId>)
    requires Assign(p, nodes).ok
    ensures var q := Assign(p, nodes).plan;
            && (forall n | n in nodes && n !in p.ranges ::
                  n in q.ranges &&
                  var net := q.ranges[n];
                  && net.mask == M24 && net.ip.a == p.ipRange.ip.a && net.ip.b == p.ipRange.ip.b
                  && 2 <= net.ip.c <= 254 && net.ip.d == p.ipRange.ip.c)
            && (p.access && p.external.None? ==>
                  var net := q.external.value;
                  && net.mask == M24 && net.ip.a == p.ipRange.ip.a && net.ip.b == p.ipRange.ip.b
                  && 2 <= net.ip.c <= 254 && net.ip.d == p.ipRange.ip.d)
  {
    AssignServes(p, nodes);
  }

  lemma ExtendsLess(r: map<NodeId, IPNet>, ipRange: IPNet, ips: map<NodeId, IPNet>, extra: set<NodeId>, used: set<int>,
        more: set<int>)
    requires Extends(r, ipRange, ips, extra, more) && used <= more
    ensures Extends(r, ipRange, ips, extra, used)
    ensures forall n | n in extra :: r[n].ip.c !in more
  {
  }

  /** A failed call changes nothing but, possibly, the user subnet. */
  lemma AssignFails(p: Plan, nodes: seq<NodeId>)
    requires !Assign(p, nodes).ok
    ensures var q := Assign(p, nodes).plan;
            && q == p.(external := q.external)
            && q.external == match UserPick(p, nodes)
                             case None => p.external
                             case Some(c) => Some(UserSubnet(p.ipRange, c))
  {
  }

  /** The octet a call picks for the user, when it picks one. */
  function UserPick(p: Plan, nodes: seq<NodeId>): Option<int> {
    if p.access && p.external.None? then NextFree(Thirds(Kept(p.ranges, nodes)), 2) else None
  }

  /** A successful call keeps the network sound. */
  lemma AssignKeepsSound(p: Plan, nodes: seq<NodeId>)
    requires Sound(p) && Assign(p, nodes).ok
    ensures Sound(Assign(p, nodes).plan)
  {
    AssignServes(p, nodes);
    var q := Assign(p, nodes).plan;
    var kept, extra := Kept(p.ranges, nodes), Unserved(p, nodes);
    forall n | n in q.ranges
      ensures n in kept ==> q.ranges[n] == p.ranges[n] && q.ranges[n].ip.c in Taken(p, nodes)
      ensures n !in kept ==> n in extra && q.ranges[n].ip.c !in Taken(p, nodes) && Inside(p.ipRange, q.ranges[n])
    {
      if n in kept { assert q.ranges[n] == kept[n]; }
    }
    assert Separate(q.external, q.ranges);
  }

  /** What a caller can check before a call: there are enough octets, or no user octet will be
      picked, or the one picked is not that of a stored subnet. */
  predicate Harmless(p: Plan, nodes: seq<NodeId>) {
    || Needed(p, nodes) <= |Free(Taken(p, nodes))|
    || UserPick(p, nodes).None?
    || UserPick(p, nodes).value !in Thirds(p.ranges)
  }

  /** A failed call can store a user subnet that a node dropped from this call still holds.
      From a sound network, one call leaves the subnets separate, and the network sound,
      exactly when it is harmless. */
  lemma AssignSeparateIff(p: Plan, nodes: seq<NodeId>)
    requires Sound(p)
    ensures var q := Assign(p, nodes).plan;
            && (Separate(q.external, q.ranges) <==> Harmless(p, nodes))
            && (Sound(q) <==> Harmless(p, nodes))
  {
    AssignSucceedsIff(p, nodes);
    if Assign(p, nodes).ok {
      AssignKeepsSound(p, nodes);
    } else {
      AssignFails(p, nodes);
      if UserPick(p, nodes).Some? { PickSeparateIff(p, UserPick(p, nodes).value); }
    }
  }

  lemma PickSeparateIff(p: Plan, c: Octet)
    requires Sound(p) && p.access && p.external.None?
    ensures var q := p.(external := Some(UserSubnet(p.ipRange, c)));
            && (Separate(q.external, q.ranges) <==> c !in Thirds(p.ranges))
            && (Sound(q) <==> c !in Thirds(p.ranges))
  {
    if c in Thirds(p.ranges) {
      var n :| n in p.ranges && p.ranges[n].ip.c == c;
    }
  }

  /** The nodes lo, lo + 1, ..., hi - 1. */
  function Interval(lo: nat, hi: nat): (r: seq<NodeId>)
    requires lo <= hi
    ensures forall n :: n in r <==> lo <= n < hi
    decreases hi - lo
  {
    if lo == hi then [] else [lo] + Interval(lo + 1, hi)
  }

  lemma {:induction false} IntervalSize(lo: nat, hi: nat)
    requires lo <= hi
    ensures |Elems(Interval(lo, hi))| == hi - lo
    decreases hi - lo
  {
    if lo == hi {
      assert Elems(Interval(lo, hi)) == {};
    } else {
      IntervalSize(lo + 1, hi);
      assert Elems(Interval(lo, hi)) == {lo} + Elems(Interval(lo + 1, hi));
    }
  }

  /** A network with user access in which node 1 holds octet 2. */
  function OneNode(net: IPNet, external: Option<IPNet>): Plan {
    Plan(net, true, external, map[1 := NodeSubnet(net, 2)])
  }

  lemma TooManyNodes(net: IPNet)
    ensures Assign(OneNode(net, None), Interval(2, 255))
         == Outcome(OneNode(net, Some(UserSubnet(net, 2))), false)
  {
    var p, many := OneNode(net, None), Interval(2, 255);
    assert Kept(p.ranges, many) == map[];
    assert Taken(p, many) == {};
    IntervalSize(2, 255);
    assert Unserved(p, many) == Elems(many);
    assert Free({}) == Elems(many);
    AssignSucceedsIff(p, many);
    AssignFails(p, many);
  }

  lemma NodeOneComesBack(net: IPNet, p: Plan)
    requires p == OneNode(net, Some(UserSubnet(net, 2)))
    ensures Assign(p, [1]).ok && !Separate(Assign(p, [1]).plan.external, Assign(p, [1]).plan.ranges)
  {
  }

  /** A run on which the failing branch does lose separation: node 1 holds octet 2, a
      call for 253 other nodes stores octet 2 for the user and fails, and the next call
      for node 1 alone succeeds with both on octet 2. */
  lemma FailedCallCanCollide(net: IPNet)
    ensures var first := Assign(OneNode(net, None), Interval(2, 255));
            && Sound(OneNode(net, None)) && !first.ok
            && var second := Assign(first.plan, [1]);
               second.ok && !Separate(second.plan.external, second.plan.ranges)
  {
    TooManyNodes(net);
    NodeOneComesBack(net, OneNode(net, Some(UserSubnet(net, 2))));
  }

  // ----- Runs ---------------------------------------------------------------

  /** What InvalidateBrokenAttributes leaves: nodes whose contract is gone lose their
      subnet, as does everything outside the (possibly new) network range; without
      user access the user subnet is dropped. */
  function Invalidate(p: Plan, dead: set<NodeId>): Plan {
    var ext := if p.external.Some? && !Contains(p.ipRange, p.external.value.ip) then None else p.external;
    p.(external := if p.access then ext else None,
       ranges := map n | n in p.ranges && n !in dead && Contains(p.ipRange, p.ranges[n].ip) :: p.ranges[n])
  }

  /** One deployment request: the caller may change the range, the access flag and the
      node list; some contracts may have disappeared meanwhile. */
  datatype Request = Request(ipRange: IPNet, access: bool, dead: set<NodeId>, nodes: seq<NodeId>)

  /** The network as a request finds it. */
  function Renewed(p: Plan, r: Request): Plan {
    Invalidate(p.(ipRange := r.ipRange, access := r.access), r.dead)
  }

  function Serve(p: Plan, r: Request): Outcome {
    Assign(Renewed(p, r), r.nodes)
  }

  /** The networks after each request of a run; a failed request leaves what it leaves, and
      the run goes on. */
  function Run(p: Plan, rs: seq<Request>): (trace: seq<Plan>)
    ensures |trace| == |rs| + 1 && trace[0] == p
    decreases |rs|
  {
    if rs == [] then [p] else [p] + Run(Serve(p, rs[0]).plan, rs[1..])
  }

  predicate SixteenWide(rs: seq<Request>) {
    forall i | 0 <= i < |rs| :: rs[i].ipRange.mask == M16
  }

  lemma RenewedIsSound(p: Plan, r: Request)
    requires Sound(p) && r.ipRange.mask == M16
    ensures Sound(Renewed(p, r))
  {
  }

  lemma {:induction false} RunStep(p: Plan, rs: seq<Request>, i: nat)
    requires i < |rs|
    ensures Run(p, rs)[i + 1] == Serve(Run(p, rs)[i], rs[i]).plan
    decreases i
  {
    var next := Serve(p, rs[0]).plan;
    if i > 0 {
      RunStep(next, rs[1..], i - 1);
    }
  }

  predicate HarmlessRequest(p: Plan, r: Request) {
    Harmless(Renewed(p, r), r.nodes)
  }

  /** Every request of a run is harmless when its turn comes. */
  predicate AllHarmless(trace: seq<Plan>, rs: seq<Request>)
    requires |trace| == |rs| + 1
  {
    forall i | 0 <= i < |rs| :: HarmlessRequest(trace[i], rs[i])
  }

  ghost predicate AllSound(trace: seq<Plan>) {
    forall i | 0 <= i < |trace| :: Sound(trace[i])
  }

  lemma StepSoundIff(p: Plan, rs: seq<Request>, i: nat)
    requires SixteenWide(rs) && i < |rs| && Sound(Run(p, rs)[i])
    ensures Sound(Run(p, rs)[i + 1]) <==> HarmlessRequest(Run(p, rs)[i], rs[i])
  {
    RunStep(p, rs, i);
    RenewedIsSound(Run(p, rs)[i], rs[i]);
    AssignSeparateIff(Renewed(Run(p, rs)[i], rs[i]), rs[i].nodes);
  }

  lemma {:induction false} SoundUpTo(p: Plan, rs: seq<Request>, i: nat)
    requires Sound(p) && SixteenWide(rs) && i <= |rs| && AllHarmless(Run(p, rs), rs)
    ensures Sound(Run(p, rs)[i])
    decreases i
  {
    if i > 0 {
      SoundUpTo(p, rs, i - 1);
      StepSoundIff(p, rs, i - 1);
    }
  }

  /** Over any run of requests, succeeding and failing, all networks are sound exactly when
      every request is harmless at its turn. */
  lemma RunSoundIff(p: Plan, rs: seq<Request>)
    requires Sound(p) && SixteenWide(rs)
    ensures AllSound(Run(p, rs)) <==> AllHarmless(Run(p, rs), rs)
  {
    if AllHarmless(Run(p, rs), rs) {
      forall i | 0 <= i < |Run(p, rs)| ensures Sound(Run(p, rs)[i]) { SoundUpTo(p, rs, i); }
    }
    if AllSound(Run(p, rs)) {
      forall i | 0 <= i < |rs| ensures HarmlessRequest(Run(p, rs)[i], rs[i]) { StepSoundIff(p, rs, i); }
    }
  }

  /** After a request of a run for which there are enough octets, exactly its nodes are served. */
  lemma RunServes(p: Plan, rs: seq<Request>, i: nat)
    requires i < |rs|
    requires var q := Renewed(Run(p, rs)[i], rs[i]);
             Needed(q, rs[i].nodes) <= |Free(Taken(q, rs[i].nodes))|
    ensures Run(p, rs)[i + 1].ranges.Keys == Elems(rs[i].nodes)
  {
    var q := Renewed(Run(p, rs)[i], rs[i]);
    RunStep(p, rs, i);
    AssignSucceedsIff(q, rs[i].nodes);
    AssignServes(q, rs[i].nodes);
  }

  /** A node stays served by a request when it is asked for, its contract lives, and
      its subnet fits the requested range. */
  predicate Stays(r: Request, n: NodeId, net: IPNet) {
    n in r.nodes && n !in r.dead && Contains(r.ipRange, net.ip)
  }

  /** A node that stays through a run keeps the subnet it started with, whichever of the
      requests fail. */
  lemma {:induction false} SurvivorsKeepSubnet(p: Plan, rs: seq<Request>, n: NodeId, i: nat)
    requires n in p.ranges && i <= |rs|
    requires forall j | 0 <= j < i :: Stays(rs[j], n, p.ranges[n])
    ensures n in Run(p, rs)[i].ranges && Run(p, rs)[i].ranges[n] == p.ranges[n]
    decreases i
  {
    if i > 0 {
      SurvivorsKeepSubnet(p, rs, n, i - 1);
      RunStep(p, rs, i - 1);
      ServeKeepsSubnet(Run(p, rs)[i - 1], rs[i - 1], n);
    }
  }

  lemma ServeKeepsSubnet(p: Plan, r: Request, n: NodeId)
    requires n in p.ranges && Stays(r, n, p.ranges[n])
    ensures n in Serve(p, r).plan.ranges && Serve(p, r).plan.ranges[n] == p.ranges[n]
  {
    var q := Renewed(p, r);
    if Serve(p, r).ok {
      AssignServes(q, r.nodes);
      assert n in Kept(q.ranges, r.nodes);
    } else {
      AssignFails(q, r.nodes);
    }
  }

  /** A node whose contract is gone, or whose subnet is outside the range now, has lost its
      subnet and is given one on an octet that nothing kept uses. */
  lemma VanishedIsServedAnew(p: Plan, r: Request, n: NodeId)
    requires Serve(p, r).ok && n in r.nodes
    requires n in p.ranges ==> n in r.dead || !Contains(r.ipRange, p.ranges[n].ip)
    ensures var q := Serve(p, r).plan;
            && n !in Renewed(p, r).ranges && n in q.ranges && Inside(r.ipRange, q.ranges[n])
            && q.ranges[n].ip.c in Free(Taken(Renewed(p, r), r.nodes))
  {
    AssignServes(Renewed(p, r), r.nodes);
  }

  /** The user's subnet survives every request that leaves access on and whose range contains
      it, whichever of them fail. */
  lemma {:induction false} UserKeepsSubnet(p: Plan, rs: seq<Request>, i: nat)
    requires p.external.Some? && i <= |rs|
    requires forall j | 0 <= j < i :: rs[j].access && Contains(rs[j].ipRange, p.external.value.ip)
    ensures Run(p, rs)[i].external == p.external
    decreases i
  {
    if i > 0 {
      UserKeepsSubnet(p, rs, i - 1);
      RunStep(p, rs, i - 1);
      var q := Renewed(Run(p, rs)[i - 1], rs[i - 1]);
      if Assign(q, rs[i - 1].nodes).ok {
        AssignServes(q, rs[i - 1].nodes);
      } else {
        AssignFails(q, rs[i - 1].nodes);
      }
    }
  }
}
