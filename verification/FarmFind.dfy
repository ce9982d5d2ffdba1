/** Finding a node for a request, and claiming what it asks for. */
module FarmFind {
  import opened Wrappers
  import opened FarmTypes
  import opened FarmState
  import opened FarmGpus

  const GB: nat := 1024 * 1024 * 1024

  datatype Options = Options(
    excluded: seq<NodeId>, numGpu: nat, vendors: seq<string>, devices: seq<string>,
    certified: bool, dedicated: bool, publicConfig: bool, publicIPs: nat,
    cru: nat, sru: nat, mru: nat, hru: nat)

  function Wanted(o: Options): Capacity {
    Capacity(o.cru, o.sru * GB, o.mru * GB, o.hru * GB)
  }

  /** Naming a vendor or a device asks for at least one GPU. */
  function NumGpu(o: Options): nat {
    if (o.vendors != [] || o.devices != []) && o.numGpu == 0 then 1 else o.numGpu
  }

  function MatchingGpus(n: Node, o: Options): seq<Gpu> {
    Matching(n.gpus, o.vendors, o.devices)
  }

  /** Whether a node is a candidate. */
  predicate Suits(n: Node, o: Options, overProvision: nat) {
    && (NumGpu(o) > 0 ==> |MatchingGpus(n, o)| >= NumGpu(o))
    && (o.certified ==> n.chain.certified)
    && (o.publicConfig ==> n.chain.publicConfig)
    && !n.rented
    && (if o.dedicated then n.dedicated && n.IsUnused() else n.dedicated ==> Wanted(o) == n.total)
    && n.Id() !in o.excluded
    && n.CanClaim(Wanted(o), overProvision)
  }

  /** A candidate that no other candidate precedes by its power state. Which of several is
      picked is left to the sort. */
  predicate IsPick(nodes: seq<Node>, o: Options, overProvision: nat, pick: nat) {
    && pick < |nodes| && Suits(nodes[pick], o, overProvision)
    && forall j | 0 <= j < |nodes| && Suits(nodes[j], o, overProvision) ::
         nodes[pick].power.Rank() <= nodes[j].power.Rank()
  }

  function PublicIPsUsed(nodes: seq<Node>): nat
    decreases |nodes|
  {
    if nodes == [] then 0 else PublicIPsUsed(nodes[..|nodes| - 1]) + nodes[|nodes| - 1].publicIPsUsed
  }

  predicate Ordinary(o: Options) { !o.dedicated && NumGpu(o) == 0 }

  /** A dedicated or GPU request claims the whole node. */
  function ClaimOf(n: Node, o: Options): Capacity {
    if Ordinary(o) then Wanted(o) else n.total
  }

  function Claimed(n: Node, o: Options, now: Time): Node {
    n.(used := n.used.Plus(ClaimOf(n, o)), claimedUntil := now + CLAIM_TIMEOUT,
        publicIPsUsed := n.publicIPsUsed + o.publicIPs)
  }

  /** The sum wraps around in 64 bits. */
  predicate EnoughPublicIPs(nodes: seq<Node>, o: Options, farmIPs: nat) {
    o.publicIPs > 0 ==> (PublicIPsUsed(nodes) + o.publicIPs) % WORD <= farmIPs
  }

  predicate Findable(nodes: seq<Node>, o: Options, overProvision: nat) {
    exists j | 0 <= j < |nodes| :: Suits(nodes[j], o, overProvision)
  }

  /** When there is anything to pick from, the pick is a proper one. */
  predicate ProperPick(nodes: seq<Node>, farmIPs: nat, o: Options, overProvision: nat, pick: nat) {
    EnoughPublicIPs(nodes, o, farmIPs) && Findable(nodes, o, overProvision) ==> IsPick(nodes, o, overProvision, pick)
  }

  datatype Found = Found(nodes: seq<Node>, node: Option<NodeId>)

  /** The claim goes onto a copy taken before a sleeping node is woken, so writing it back
      also puts the old power state back. */
  function Find(nodes: seq<Node>, farmIPs: nat, o: Options, overProvision: nat, now: Time, pick: nat,
        chainOk: bool): Found
    requires ProperPick(nodes, farmIPs, o, overProvision, pick)
  {
    if !EnoughPublicIPs(nodes, o, farmIPs) || !Findable(nodes, o, overProvision) then Found(nodes, None)
    else Settle(nodes, Claimed(nodes[pick], o, now), now, chainOk)
  }

  function Settle(nodes: seq<Node>, found: Node, now: Time, chainOk: bool): Found {
    var woken := if found.power in {Off, ShuttingDown} then PowerOn(nodes, found.Id(), now, chainOk)
        else Effect(nodes, true, false);
    if !woken.ok then Found(woken.nodes, None)
    else
      var w := UpdateNode(woken.nodes, found);
      Found(w.nodes, if w.ok then Some(found.Id()) else None)
  }

  /** A find either changes nothing or puts the claim on the picked node and changes nothing
      else. */
  lemma FindIs(nodes: seq<Node>, farmIPs: nat, o: Options, overProvision: nat, now: Time, pick: nat, chainOk: bool)
    requires UniqueIds(nodes)
    requires ProperPick(nodes, farmIPs, o, overProvision, pick)
    ensures var r := Find(nodes, farmIPs, o, overProvision, now, pick, chainOk);
            match r.node
            case None => r.nodes == nodes
            case Some(id) =>
              && EnoughPublicIPs(nodes, o, farmIPs) && IsPick(nodes, o, overProvision, pick)
              && id == nodes[pick].Id() && r.nodes == nodes[pick := Claimed(nodes[pick], o, now)]
  {
  }

  // ----- What is found ------------------------------------------------------------------

  predicate WantsGpu(o: Options) { o.numGpu > 0 || o.vendors != [] || o.devices != [] }

  /** Nothing is asked for, or it fits beside what is used. */
  predicate RoomFor(amount: nat, used: nat, total: nat) { amount == 0 || used + amount <= total }

  /** What a request asks of a node, filter by filter; storage and memory are asked for in
      units of 2^30. */
  predicate Offers(n: Node, o: Options, overProvision: nat) {
    var sru, mru, hru := o.sru * 0x4000_0000, o.mru * 0x4000_0000, o.hru * 0x4000_0000;
    && (o.certified ==> n.chain.certified)
    && (o.publicConfig ==> n.chain.publicConfig)
    && !n.rented
    && (o.dedicated ==> n.dedicated && n.used.AtMost(n.system))
    && (n.dedicated && !o.dedicated ==>
          o.cru == n.total.cru && sru == n.total.sru && mru == n.total.mru && hru == n.total.hru)
    && (forall i | 0 <= i < |o.excluded| :: o.excluded[i] != n.chain.id)
    && (WantsGpu(o) ==> |MatchingGpus(n, o)| >= 1 && |MatchingGpus(n, o)| >= o.numGpu)
    && o.cru <= n.total.cru
    && RoomFor(o.cru, n.used.cru, n.total.cru * overProvision) && RoomFor(sru, n.used.sru, n.total.sru)
    && RoomFor(mru, n.used.mru, n.total.mru) && RoomFor(hru, n.used.hru, n.total.hru)
  }

  lemma RoomForIff(amount: nat, used: nat, total: nat)
    ensures RoomFor(amount, used, total) <==> amount <= SubtractOrZero(total, used)
  {
  }

  /** The candidates are the nodes that offer what is asked for. */
  lemma SuitsIff(n: Node, o: Options, overProvision: nat)
    ensures Suits(n, o, overProvision) <==> Offers(n, o, overProvision)
  {
    RoomForIff(o.cru, n.used.cru, n.total.cru * overProvision);
    RoomForIff(o.sru * GB, n.used.sru, n.total.sru);
    RoomForIff(o.mru * GB, n.used.mru, n.total.mru);
    RoomForIff(o.hru * GB, n.used.hru, n.total.hru);
  }

  /** Some candidate is in the state. */
  predicate SomeIn(nodes: seq<Node>, o: Options, overProvision: nat, state: PowerState) {
    exists j | 0 <= j < |nodes| :: Offers(nodes[j], o, overProvision) && nodes[j].power == state
  }

  lemma PickIsMostAwake(nodes: seq<Node>, o: Options, overProvision: nat, pick: nat)
    requires IsPick(nodes, o, overProvision, pick)
    ensures Offers(nodes[pick], o, overProvision)
    ensures nodes[pick].power == if SomeIn(nodes, o, overProvision, On) then On
                                 else if SomeIn(nodes, o, overProvision, WakingUp) then WakingUp
                                 else if SomeIn(nodes, o, overProvision, Off) then Off
                                 else ShuttingDown
  {
    SuitsIff(nodes[pick], o, overProvision);
    forall j | 0 <= j < |nodes| && Offers(nodes[j], o, overProvision)
      ensures nodes[pick].power.Rank() <= nodes[j].power.Rank()
    {
      SuitsIff(nodes[j], o, overProvision);
    }
  }

  predicate SomeOffers(nodes: seq<Node>, o: Options, overProvision: nat) {
    exists j | 0 <= j < |nodes| :: Offers(nodes[j], o, overProvision)
  }

  lemma FindableIff(nodes: seq<Node>, o: Options, overProvision: nat)
    ensures Findable(nodes, o, overProvision) <==> SomeOffers(nodes, o, overProvision)
  {
    if Findable(nodes, o, overProvision) {
      var j :| 0 <= j < |nodes| && Suits(nodes[j], o, overProvision);
      SuitsIff(nodes[j], o, overProvision);
    }
    if SomeOffers(nodes, o, overProvision) {
      var j :| 0 <= j < |nodes| && Offers(nodes[j], o, overProvision);
      SuitsIff(nodes[j], o, overProvision);
    }
  }

  /** No public IPs are asked for, or what is in use and asked for, as a 64-bit sum, is at most
      what the farm has. */
  predicate IPsLeft(nodes: seq<Node>, o: Options, farmIPs: nat) {
    o.publicIPs == 0 || (PublicIPsUsed(nodes) + o.publicIPs) % 0x1_0000_0000_0000_0000 <= farmIPs
  }

  lemma EnoughPublicIPsIff(nodes: seq<Node>, o: Options, farmIPs: nat)
    ensures EnoughPublicIPs(nodes, o, farmIPs) <==> IPsLeft(nodes, o, farmIPs)
  {
  }

  lemma SettleSucceedsIff(nodes: seq<Node>, pick: nat, found: Node, now: Time, chainOk: bool)
    requires UniqueIds(nodes) && pick < |nodes| && found.Id() == nodes[pick].Id() && found.power == nodes[pick].power
    ensures Settle(nodes, found, now, chainOk).node.Some? <==> (found.power in {Off, ShuttingDown} ==> chainOk)
  {
    PowerOnWakes(nodes, found.Id(), now, chainOk);
    assert nodes[pick].Id() == found.Id();
  }

  /** A find succeeds exactly when the public IPs suffice, some node offers what is asked for,
      and the one picked is awake or the chain turns it on. */
  lemma FindSucceedsIff(nodes: seq<Node>, farmIPs: nat, o: Options, overProvision: nat, now: Time, pick: nat,
      chainOk: bool)
    requires UniqueIds(nodes) && ProperPick(nodes, farmIPs, o, overProvision, pick)
    ensures Find(nodes, farmIPs, o, overProvision, now, pick, chainOk).node.Some? <==>
              && IPsLeft(nodes, o, farmIPs) && SomeOffers(nodes, o, overProvision)
              && (pick < |nodes| && nodes[pick].power in {Off, ShuttingDown} ==> chainOk)
  {
    FindableIff(nodes, o, overProvision);
    EnoughPublicIPsIff(nodes, o, farmIPs);
    if EnoughPublicIPs(nodes, o, farmIPs) && Findable(nodes, o, overProvision) {
      var found := Claimed(nodes[pick], o, now);
      assert Find(nodes, farmIPs, o, overProvision, now, pick, chainOk) == Settle(nodes, found, now, chainOk);
      SettleSucceedsIff(nodes, pick, found, now, chainOk);
    } else {
      assert Find(nodes, farmIPs, o, overProvision, now, pick, chainOk).node.None?;
    }
  }

  /** The node found offers what is asked for, no candidate is more awake, and it holds the
      claim for half an hour: what was asked for, or all of it for a dedicated or GPU request. */
  lemma FoundFits(nodes: seq<Node>, farmIPs: nat, o: Options, overProvision: nat, now: Time, pick: nat, chainOk: bool)
    requires UniqueIds(nodes) && ProperPick(nodes, farmIPs, o, overProvision, pick)
    requires Find(nodes, farmIPs, o, overProvision, now, pick, chainOk).node.Some?
    ensures var r := Find(nodes, farmIPs, o, overProvision, now, pick, chainOk);
            && pick < |nodes| == |r.nodes| && r.node == Some(nodes[pick].Id())
            && Offers(nodes[pick], o, overProvision)
            && nodes[pick].power == (if SomeIn(nodes, o, overProvision, On) then On
                                     else if SomeIn(nodes, o, overProvision, WakingUp) then WakingUp
                                     else if SomeIn(nodes, o, overProvision, Off) then Off
                                     else ShuttingDown)
            && r.nodes[pick].claimedUntil == now + 1800
            && r.nodes[pick].publicIPsUsed == nodes[pick].publicIPsUsed + o.publicIPs
            && var c := if o.dedicated || WantsGpu(o) then nodes[pick].total
                        else Capacity(o.cru, o.sru * 0x4000_0000, o.mru * 0x4000_0000, o.hru * 0x4000_0000);
               r.nodes[pick].used == nodes[pick].used.Plus(c)
  {
    FindIs(nodes, farmIPs, o, overProvision, now, pick, chainOk);
    PickIsMostAwake(nodes, o, overProvision, pick);
  }

  // ----- What finds keep ----------------------------------------------------------------

  /** The use is within the totals, the CPU counted `overProvision` times. */
  predicate Within(n: Node, overProvision: nat) {
    && n.used.cru <= n.total.cru * overProvision
    && n.used.sru <= n.total.sru && n.used.mru <= n.total.mru && n.used.hru <= n.total.hru
  }

  /** A claim on a candidate within its totals stays within them exactly when it is ordinary,
      or the node was free of any use and its CPU had a whole total to spare. */
  lemma ClaimWithinIff(n: Node, o: Options, overProvision: nat, now: Time)
    requires Within(n, overProvision) && Suits(n, o, overProvision)
    ensures Within(Claimed(n, o, now), overProvision) <==>
              Ordinary(o) || (n.used.cru + n.total.cru <= n.total.cru * overProvision
                              && n.used.sru == 0 && n.used.mru == 0 && n.used.hru == 0)
  {
  }

  /** A find request and what decides it. */
  datatype Request = Request(o: Options, now: Time, pick: nat, chainOk: bool)

  /** Each pick of a run is a proper one when its turn comes. */
  predicate ProperPicks(nodes: seq<Node>, farmIPs: nat, overProvision: nat, rs: seq<Request>)
    decreases |rs|
  {
    rs == [] ||
    ( && ProperPick(nodes, farmIPs, rs[0].o, overProvision, rs[0].pick)
      && ProperPicks(Find(nodes, farmIPs, rs[0].o, overProvision, rs[0].now, rs[0].pick, rs[0].chainOk).nodes,
           farmIPs, overProvision, rs[1..]))
  }

  function FindAll(nodes: seq<Node>, farmIPs: nat, overProvision: nat, rs: seq<Request>): seq<Node>
    requires ProperPicks(nodes, farmIPs, overProvision, rs)
    decreases |rs|
  {
    if rs == [] then nodes
    else FindAll(Find(nodes, farmIPs, rs[0].o, overProvision, rs[0].now, rs[0].pick, rs[0].chainOk).nodes,
           farmIPs, overProvision, rs[1..])
  }

  /** Any run of ordinary finds keeps every node within its totals. */
  lemma {:induction false} OrdinaryFindsStayWithin(nodes: seq<Node>, farmIPs: nat, overProvision: nat, rs: seq<Request>)
    requires UniqueIds(nodes) && ProperPicks(nodes, farmIPs, overProvision, rs)
    requires forall n | n in nodes :: Within(n, overProvision)
    requires forall r | r in rs :: Ordinary(r.o)
    ensures forall n | n in FindAll(nodes, farmIPs, overProvision, rs) :: Within(n, overProvision)
    decreases |rs|
  {
    if rs != [] {
      var r := rs[0];
      FindIs(nodes, farmIPs, r.o, overProvision, r.now, r.pick, r.chainOk);
      var f := Find(nodes, farmIPs, r.o, overProvision, r.now, r.pick, r.chainOk);
      if f.node.Some? {
        assert nodes[r.pick] in nodes;
        ClaimWithinIff(nodes[r.pick], r.o, overProvision, r.now);
        forall n | n in f.nodes ensures Within(n, overProvision) {
          var j :| 0 <= j < |f.nodes| && f.nodes[j] == n;
          if j != r.pick { assert n == nodes[j]; }
        }
      }
      OrdinaryFindsStayWithin(f.nodes, farmIPs, overProvision, rs[1..]);
    }
  }

  lemma {:induction false} PublicIPsAfter(nodes: seq<Node>, i: nat, n: Node)
    requires i < |nodes|
    ensures PublicIPsUsed(nodes[i := n]) + nodes[i].publicIPsUsed == PublicIPsUsed(nodes) + n.publicIPsUsed
    decreases |nodes|
  {
    var k := |nodes| - 1;
    if i == k {
      assert nodes[i := n][..k] == nodes[..k];
    } else {
      assert nodes[i := n][..k] == nodes[..k][i := n];
      PublicIPsAfter(nodes[..k], i, n);
    }
  }

  /** All along the run the claimed public IPs are within the farm's. */
  predicate WithinPublicIPs(nodes: seq<Node>, farmIPs: nat, overProvision: nat, rs: seq<Request>)
    requires ProperPicks(nodes, farmIPs, overProvision, rs)
    decreases |rs|
  {
    PublicIPsUsed(nodes) <= farmIPs &&
    (rs == [] ||
      var f := Find(nodes, farmIPs, rs[0].o, overProvision, rs[0].now, rs[0].pick, rs[0].chainOk);
      WithinPublicIPs(f.nodes, farmIPs, overProvision, rs[1..]))
  }

  /** No request that finds a node makes the sum wrap around at its turn. */
  predicate NoneWraps(nodes: seq<Node>, farmIPs: nat, overProvision: nat, rs: seq<Request>)
    requires ProperPicks(nodes, farmIPs, overProvision, rs)
    decreases |rs|
  {
    rs == [] ||
      var f := Find(nodes, farmIPs, rs[0].o, overProvision, rs[0].now, rs[0].pick, rs[0].chainOk);
      && (f.node.Some? ==> PublicIPsUsed(nodes) + rs[0].o.publicIPs < WORD)
      && NoneWraps(f.nodes, farmIPs, overProvision, rs[1..])
  }

  lemma FindClaimsPublicIPs(nodes: seq<Node>, farmIPs: nat, overProvision: nat, r: Request)
    requires UniqueIds(nodes) && PublicIPsUsed(nodes) <= farmIPs < WORD
    requires ProperPick(nodes, farmIPs, r.o, overProvision, r.pick)
    ensures var f := Find(nodes, farmIPs, r.o, overProvision, r.now, r.pick, r.chainOk);
            && UniqueIds(f.nodes)
            && PublicIPsUsed(f.nodes) == PublicIPsUsed(nodes) + (if f.node.Some? then r.o.publicIPs else 0)
            && (f.node.Some? ==>
                  (PublicIPsUsed(f.nodes) <= farmIPs <==> PublicIPsUsed(nodes) + r.o.publicIPs < WORD))
  {
    FindIs(nodes, farmIPs, r.o, overProvision, r.now, r.pick, r.chainOk);
    var f := Find(nodes, farmIPs, r.o, overProvision, r.now, r.pick, r.chainOk);
    if f.node.Some? {
      PublicIPsAfter(nodes, r.pick, Claimed(nodes[r.pick], r.o, r.now));
    }
  }

  /** A run of finds keeps the claimed public IPs within the farm's exactly when no request that
      finds a node makes the sum wrap around. */
  lemma {:induction false} FindsKeepPublicIPsIff(nodes: seq<Node>, farmIPs: nat, overProvision: nat, rs: seq<Request>)
    requires UniqueIds(nodes) && ProperPicks(nodes, farmIPs, overProvision, rs)
    requires PublicIPsUsed(nodes) <= farmIPs < WORD
    ensures WithinPublicIPs(nodes, farmIPs, overProvision, rs) <==> NoneWraps(nodes, farmIPs, overProvision, rs)
    decreases |rs|
  {
    if rs != [] {
      var r := rs[0];
      FindClaimsPublicIPs(nodes, farmIPs, overProvision, r);
      var f := Find(nodes, farmIPs, r.o, overProvision, r.now, r.pick, r.chainOk);
      if PublicIPsUsed(f.nodes) <= farmIPs {
        FindsKeepPublicIPsIff(f.nodes, farmIPs, overProvision, rs[1..]);
      } else {
        assert !WithinPublicIPs(f.nodes, farmIPs, overProvision, rs[1..]);
      }
    }
  }

  /** In particular any run of requests for fewer than 2^64 less the farm's. */
  lemma {:induction false} FindsKeepPublicIPs(nodes: seq<Node>, farmIPs: nat, overProvision: nat, rs: seq<Request>)
    requires UniqueIds(nodes) && ProperPicks(nodes, farmIPs, overProvision, rs)
    requires PublicIPsUsed(nodes) <= farmIPs < WORD
    requires forall i | 0 <= i < |rs| :: rs[i].o.publicIPs < WORD - farmIPs
    ensures PublicIPsUsed(FindAll(nodes, farmIPs, overProvision, rs)) <= farmIPs
    decreases |rs|
  {
    if rs != [] {
      var r := rs[0];
      FindClaimsPublicIPs(nodes, farmIPs, overProvision, r);
      FindsKeepPublicIPs(Find(nodes, farmIPs, r.o, overProvision, r.now, r.pick, r.chainOk).nodes,
        farmIPs, overProvision, rs[1..]);
    }
  }

  lemma OneNodeMeets(n: Node, o: Options)
    requires Suits(n, o, 1) && n.power == On && n.publicIPsUsed == 1 && o.publicIPs == WORD - 1
    ensures ProperPick([n], 1, o, 1, 0) && Find([n], 1, o, 1, 0, 0, true).node == Some(n.Id())
    ensures PublicIPsUsed([n]) == 1 && PublicIPsUsed(Find([n], 1, o, 1, 0, 0, true).nodes) == WORD
  {
    assert [n][..0] == [] && PublicIPsUsed([n]) == 1;
    assert Suits([n][0], o, 1);
    FindIs([n], 1, o, 1, 0, 0, true);
    FindClaimsPublicIPs([n], 1, 1, Request(o, 0, 0, true));
  }

  const ONE_IP_USED := Node(ChainNode(7, 7, NOTHING, false, false), NOTHING, NOTHING, NOTHING, 1, [],
                            false, false, false, false, On, 0, 0, 0, 0, 0)

  const HUGE_REQUEST := Options([], 0, [], [], false, false, false, WORD - 1, 0, 0, 0, 0)

  /** With one public IP of one in use, a request for 2^64 - 1 more is met. */
  lemma HugeRequestIsMet()
    ensures ProperPick([ONE_IP_USED], 1, HUGE_REQUEST, 1, 0)
    ensures Find([ONE_IP_USED], 1, HUGE_REQUEST, 1, 0, 0, true).node == Some(7)
    ensures PublicIPsUsed(Find([ONE_IP_USED], 1, HUGE_REQUEST, 1, 0, 0, true).nodes) == WORD
  {
    assert Suits(ONE_IP_USED, HUGE_REQUEST, 1);
    OneNodeMeets(ONE_IP_USED, HUGE_REQUEST);
  }
}
