/** What a round of power management brings about when the chain goes along: a demand is met
    by nodes woken for it, and an idle farm goes to sleep but for one node. */
module FarmRounds {
  import opened Wrappers
  import opened FarmTypes
  import opened FarmState
  import opened FarmPower

  // ----- Waking ---------------------------------------------------------------------------

  datatype Resource = CRU | SRU | MRU | HRU

  function Amount(c: Capacity, r: Resource): nat {
    match r
    case CRU => c.cru
    case SRU => c.sru
    case MRU => c.mru
    case HRU => c.hru
  }

  /** Exactly the listed nodes that are not awake and that the chain turns on start waking up. */
  lemma {:induction false} PowerOnAllIs(nodes: seq<Node>, ids: seq<NodeId>, now: Time, chain: NodeId -> bool)
    requires UniqueIds(nodes)
    ensures var after := PowerOnAll(nodes, ids, now, chain);
            && |after| == |nodes| && UniqueIds(after)
            && forall j | 0 <= j < |nodes| ::
                 after[j] == if nodes[j].Id() in ids && nodes[j].power in {Off, ShuttingDown} && chain(nodes[j].Id())
                             then nodes[j].(power := WakingUp, lastAwake := now, lastPowerChange := now)
                             else nodes[j]
    decreases |ids|
  {
    if ids != [] {
      var k := |ids| - 1;
      PowerOnAllIs(nodes, ids[..k], now, chain);
      PowerOnWakes(PowerOnAll(nodes, ids[..k], now, chain), ids[k], now, chain(ids[k]));
      assert ids == ids[..k] + [ids[k]];
    }
  }

  /** When the selection meets the demand, some chosen node has all that is demanded of a
      resource. */
  lemma {:induction false} SelectHas(nodes: seq<Node>, demand: Capacity, r: Resource) returns (i: nat)
    requires Select(nodes, demand).demand.IsEmpty() && Amount(demand, r) > 0
    ensures i < |nodes| && nodes[i].power == Off && Amount(nodes[i].chain.resources, r) >= Amount(demand, r)
    ensures nodes[i].Id() in Select(nodes, demand).chosen
    decreases |nodes|
  {
    if nodes[0].power != Off {
      i := SelectHas(nodes[1..], demand, r);
      i := i + 1;
    } else {
      var rest := Cover(demand, nodes[0].chain.resources);
      if Amount(rest, r) == 0 {
        i := 0;
      } else {
        i := SelectHas(nodes[1..], rest, r);
        i := i + 1;
      }
    }
  }

  /** Nothing is chosen in vain: a chosen node was off and has all that is demanded of some
      resource. */
  lemma {:induction false} SelectOnly(nodes: seq<Node>, demand: Capacity, id: NodeId) returns (i: nat, r: Resource)
    requires id in Select(nodes, demand).chosen
    ensures i < |nodes| && nodes[i].power == Off && nodes[i].Id() == id
    ensures Amount(demand, r) > 0 && Amount(nodes[i].chain.resources, r) >= Amount(demand, r)
    decreases |nodes|
  {
    if nodes[0].power != Off {
      i, r := SelectOnly(nodes[1..], demand, id);
      i := i + 1;
    } else {
      var rest := Cover(demand, nodes[0].chain.resources);
      if id == nodes[0].Id() && rest != demand {
        i := 0;
        r := if rest.cru != demand.cru then CRU else if rest.sru != demand.sru then SRU
             else if rest.mru != demand.mru then MRU else HRU;
      } else {
        i, r := SelectOnly(nodes[1..], rest, id);
        i := i + 1;
      }
    }
  }

  /** A node that was off is waking up since now and has the amount. */
  ghost predicate SomeWoken(before: seq<Node>, after: seq<Node>, now: Time, r: Resource, amount: nat)
    requires |before| == |after|
  {
    exists i | 0 <= i < |before| ::
      && before[i].power == Off && after[i].power == WakingUp && after[i].lastAwake == now
      && Amount(before[i].chain.resources, r) >= amount
  }

  /** A demand that single nodes can meet, with a chain that turns them on: for each demanded
      resource some node that was off is waking up afterwards and has that much of it. */
  lemma DemandIsWoken(nodes: seq<Node>, now: Time, t: Thresholds, chain: Chain)
    requires UniqueIds(nodes) && !OnlineDemand(nodes, t).IsEmpty() && Meetable(nodes, OnlineDemand(nodes, t))
    requires forall id :: chain.turnsOn(id)
    ensures var m, demand := Manage(nodes, now, t, chain), OnlineDemand(nodes, t);
            && m.ok && |m.nodes| == |nodes|
            && forall r | Amount(demand, r) > 0 :: SomeWoken(nodes, m.nodes, now, r, Amount(demand, r))
  {
    var m, demand := Manage(nodes, now, t, chain), OnlineDemand(nodes, t);
    SelectMeetsIff(nodes, demand);
    PowerOnAllIs(nodes, Select(nodes, demand).chosen, now, chain.turnsOn);
    forall r | Amount(demand, r) > 0 ensures SomeWoken(nodes, m.nodes, now, r, Amount(demand, r)) {
      var i := SelectHas(nodes, demand, r);
      assert m.nodes[i].power == WakingUp;
    }
  }

  /** Whatever the chain answers, a round with a demand changes only nodes that were off, that
      the chain turned on, and that have all that is demanded of some resource; a demand that
      cannot be met changes nothing and is an error. */
  lemma OnlyNeededAreWoken(nodes: seq<Node>, now: Time, t: Thresholds, chain: Chain)
    requires UniqueIds(nodes) && !OnlineDemand(nodes, t).IsEmpty()
    ensures var m, demand := Manage(nodes, now, t, chain), OnlineDemand(nodes, t);
            && |m.nodes| == |nodes|
            && (m.ok <==> Meetable(nodes, demand)) && (!m.ok ==> m.nodes == nodes)
            && forall j | 0 <= j < |nodes| && m.nodes[j] != nodes[j] ::
                 && nodes[j].power == Off && chain.turnsOn(nodes[j].Id())
                 && exists r :: Amount(demand, r) > 0 && Amount(nodes[j].chain.resources, r) >= Amount(demand, r)
  {
    var m, demand := Manage(nodes, now, t, chain), OnlineDemand(nodes, t);
    var chosen := Select(nodes, demand).chosen;
    SelectMeetsIff(nodes, demand);
    PowerOnAllIs(nodes, chosen, now, chain.turnsOn);
    forall j | 0 <= j < |nodes| && m.nodes[j] != nodes[j]
      ensures nodes[j].power == Off
      ensures exists r :: Amount(demand, r) > 0 && Amount(nodes[j].chain.resources, r) >= Amount(demand, r)
    {
      var i, r := SelectOnly(nodes, demand, nodes[j].Id());
      assert i == j;
    }
  }

  // ----- Sleeping -------------------------------------------------------------------------

  /** How many of the candidates can go without the last node going. */
  function Sleepers(nodes: seq<Node>, now: Time): nat
    requires OnCount(nodes) >= 1
  {
    if |Candidates(nodes, now)| < OnCount(nodes) then |Candidates(nodes, now)| else OnCount(nodes) - 1
  }

  /** Without the first `k` candidates, what the rest have left meets their demand. */
  predicate RoomWithout(nodes: seq<Node>, now: Time, t: Thresholds, k: nat)
    requires k <= |Candidates(nodes, now)|
  {
    var gone := IdSet(Candidates(nodes, now)[..k]);
    var total, used := TotalSum(Online(nodes), gone), UsedSum(Online(nodes), gone);
    MeetDemand(total, used, Demands(total, used, t))
  }

  /** The nodes of the set are going down since now, the others are as they were. */
  ghost predicate WentDown(before: seq<Node>, after: seq<Node>, gone: set<NodeId>, now: Time) {
    && |after| == |before|
    && forall i | 0 <= i < |before| ::
         after[i] == if before[i].Id() in gone then before[i].(power := ShuttingDown, lastPowerChange := now)
                     else before[i]
  }

  /** The loop after its first `k` candidates, all of which went. */
  ghost predicate Shrunk(nodes: seq<Node>, s: Shrink, k: nat, now: Time)
    requires k <= |Candidates(nodes, now)|
  {
    && !s.stopped && s.removed == IdSet(Candidates(nodes, now)[..k]) && s.left == OnCount(nodes) - k
    && OnCount(s.nodes) == s.left && WentDown(nodes, s.nodes, s.removed, now)
  }

  lemma CandidateGoes(nodes: seq<Node>, after: seq<Node>, gone: set<NodeId>, c: nat, now: Time)
    requires UniqueIds(nodes) && WentDown(nodes, after, gone, now) && c < |nodes|
    requires nodes[c].CanShutDown(now) && nodes[c].Id() !in gone && OnCount(after) >= 2
    ensures var e := PowerOff(after, nodes[c].Id(), now, Accepted);
            && e.ok && OnCount(e.nodes) == OnCount(after) - 1
            && WentDown(nodes, e.nodes, gone + {nodes[c].Id()}, now)
  {
    PowerOffTakesDown(after, nodes[c].Id(), now, Accepted);
    assert IndexOf(after, nodes[c].Id()) == Some(c);
    OnCountAfterUpdate(after, c, GoingDown(after[c], now));
  }

  lemma NextSleeps(nodes: seq<Node>, now: Time, t: Thresholds, s: Shrink, k: nat)
    requires UniqueIds(nodes) && AllPositive(nodes) && k < |Candidates(nodes, now)|
    requires Running(nodes, s, Candidates(nodes, now)[..k]) && Shrunk(nodes, s, k, now)
    requires s.left > 1 && RoomWithout(nodes, now, t, k + 1)
    ensures Shrunk(nodes, Consider(s, Candidates(nodes, now)[k], now, t, Accepted), k + 1, now)
  {
    var n := Candidates(nodes, now)[k];
    NextIsExact(nodes, now, s, k);
    OnlinePositive(nodes, s.removed + {n.Id()});
    var c := CandidateAt(nodes, now, k);
    CandidateGoes(nodes, s.nodes, s.removed, c, now);
  }

  lemma {:induction false} FirstSleep(nodes: seq<Node>, now: Time, t: Thresholds, answers: NodeId -> OffAnswer, k: nat)
    requires UniqueIds(nodes) && AllPositive(nodes) && OnCount(nodes) > 1 && k <= Sleepers(nodes, now)
    requires forall id :: answers(id) == Accepted
    requires forall i | 1 <= i <= Sleepers(nodes, now) :: RoomWithout(nodes, now, t, i)
    ensures Shrunk(nodes, ConsiderAll(StartShrink(nodes), Candidates(nodes, now)[..k], now, t, answers), k, now)
    decreases k
  {
    var cs := Candidates(nodes, now);
    if k > 0 {
      FirstSleep(nodes, now, t, answers, k - 1);
      ShrinkIsExact(nodes, now, t, answers, k - 1);
      NextSleeps(nodes, now, t, ConsiderAll(StartShrink(nodes), cs[..k - 1], now, t, answers), k - 1);
      ConsiderNext(StartShrink(nodes), cs, k - 1, now, t, answers);
    }
  }

  lemma {:induction false} LastStays(s: Shrink, cs: seq<Node>, now: Time, t: Thresholds, answers: NodeId -> OffAnswer,
      k: nat)
    requires k <= |cs| && ConsiderAll(s, cs[..k], now, t, answers).left == 1
    ensures ConsiderAll(s, cs, now, t, answers).nodes == ConsiderAll(s, cs[..k], now, t, answers).nodes
    ensures ConsiderAll(s, cs, now, t, answers).left == 1
    decreases |cs|
  {
    if k == |cs| {
      assert cs[..k] == cs;
    } else {
      assert cs[..|cs| - 1][..k] == cs[..k];
      LastStays(s, cs[..|cs| - 1], now, t, answers, k);
    }
  }

  /** A round without demand, with a chain that takes every power-off and enough room all the
      way: the candidates go to sleep in their order, all of them or all that can go while one
      node stays on. */
  lemma FarmSleeps(nodes: seq<Node>, now: Time, t: Thresholds, chain: Chain)
    requires UniqueIds(nodes) && AllPositive(nodes) && OnCount(nodes) >= 1 && OnlineDemand(nodes, t).IsEmpty()
    requires forall id :: chain.turnsOff(id) == Accepted
    requires forall i | 1 <= i <= Sleepers(nodes, now) :: RoomWithout(nodes, now, t, i)
    ensures var after, k := Manage(nodes, now, t, chain).nodes, Sleepers(nodes, now);
            && OnCount(after) == OnCount(nodes) - k
            && WentDown(nodes, after, IdSet(Candidates(nodes, now)[..k]), now)
  {
    var cs, k := Candidates(nodes, now), Sleepers(nodes, now);
    if OnCount(nodes) > 1 {
      FirstSleep(nodes, now, t, chain.turnsOff, k);
      if k == |cs| {
        assert cs[..k] == cs;
      } else {
        LastStays(StartShrink(nodes), cs, now, t, chain.turnsOff, k);
      }
    }
  }

  /** Counting fewer nodes counts no more use. */
  lemma {:induction false} UsedSumShrinks(nodes: seq<Node>, removed: set<NodeId>, more: set<NodeId>)
    requires removed <= more
    ensures UsedSum(nodes, more).AtMost(UsedSum(nodes, removed))
    decreases |nodes|
  {
    if nodes != [] { UsedSumShrinks(nodes[..|nodes| - 1], removed, more); }
  }

  lemma NoUseNoDemand(total: nat, threshold: real)
    requires 0.0 <= threshold
    ensures Demand(0, total, threshold) == 0
  {
  }

  lemma NoUseMeetsDemand(total: Capacity, t: Thresholds)
    requires Percentages(t)
    ensures Demands(total, NOTHING, t) == NOTHING
    ensures MeetDemand(total, NOTHING, Demands(total, NOTHING, t))
  {
    NoUseNoDemand(total.cru, t.cru);
    NoUseNoDemand(total.sru, t.sru);
    NoUseNoDemand(total.mru, t.mru);
    NoUseNoDemand(total.hru, t.hru);
  }

  /** A farm of which nothing is used keeps as many nodes on as are not candidates, and at
      least one. */
  lemma IdleFarmSleeps(nodes: seq<Node>, now: Time, t: Thresholds, chain: Chain)
    requires UniqueIds(nodes) && AllPositive(nodes) && OnCount(nodes) >= 1 && Percentages(t)
    requires UsedSum(Online(nodes), {}) == NOTHING && forall id :: chain.turnsOff(id) == Accepted
    ensures OnCount(Manage(nodes, now, t, chain).nodes)
         == if |Candidates(nodes, now)| < OnCount(nodes) then OnCount(nodes) - |Candidates(nodes, now)| else 1
  {
    NoUseMeetsDemand(TotalSum(Online(nodes), {}), t);
    forall i | 1 <= i <= Sleepers(nodes, now) ensures RoomWithout(nodes, now, t, i) {
      var gone := IdSet(Candidates(nodes, now)[..i]);
      UsedSumShrinks(Online(nodes), {}, gone);
      NoUseMeetsDemand(TotalSum(Online(nodes), gone), t);
    }
    FarmSleeps(nodes, now, t, chain);
  }
}
