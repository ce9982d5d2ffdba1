/** What a round of shutting down leaves on. The loop's test speaks of the nodes it still counts;
    the nodes that really stay on are those as long as no power-off fails on the chain and is
    recorded all the same. */
module FarmMargins {
  import opened Wrappers
  import opened FarmTypes
  import opened FarmState
  import opened FarmPower

  // ----- Slack ----------------------------------------------------------------------------

  /** How much is left to the half-way point between threshold and full. */
  function Slack(used: nat, total: nat, threshold: real): real {
    (100.0 + threshold) * total as real - 200.0 * used as real
  }

  lemma SlackPlus(used: nat, total: nat, moreUsed: nat, moreTotal: nat, threshold: real)
    ensures Slack(used + moreUsed, total + moreTotal, threshold)
         == Slack(used, total, threshold) + Slack(moreUsed, moreTotal, threshold)
  {
  }

  lemma SlackIff(used: nat, total: nat, threshold: real)
    ensures HalfSafe(used, total, threshold) <==> Slack(used, total, threshold) >= 0.0
  {
  }

  /** In every resource the second pair has at least the slack of the first. */
  predicate NoLessSlack(used: Capacity, total: Capacity, used': Capacity, total': Capacity, t: Thresholds) {
    && Slack(used.cru, total.cru, t.cru) <= Slack(used'.cru, total'.cru, t.cru)
    && Slack(used.sru, total.sru, t.sru) <= Slack(used'.sru, total'.sru, t.sru)
    && Slack(used.mru, total.mru, t.mru) <= Slack(used'.mru, total'.mru, t.mru)
    && Slack(used.hru, total.hru, t.hru) <= Slack(used'.hru, total'.hru, t.hru)
  }

  lemma SlackKeepsHalfSafe(used: Capacity, total: Capacity, used': Capacity, total': Capacity, t: Thresholds)
    requires AllHalfSafe(used, total, t) && NoLessSlack(used, total, used', total', t)
    ensures AllHalfSafe(used', total', t)
  {
    SlackIff(used.cru, total.cru, t.cru);
    SlackIff(used.sru, total.sru, t.sru);
    SlackIff(used.mru, total.mru, t.mru);
    SlackIff(used.hru, total.hru, t.hru);
    SlackIff(used'.cru, total'.cru, t.cru);
    SlackIff(used'.sru, total'.sru, t.sru);
    SlackIff(used'.mru, total'.mru, t.mru);
    SlackIff(used'.hru, total'.hru, t.hru);
  }

  lemma SlackPlusAll(used: Capacity, total: Capacity, n: Capacity, of: Capacity, t: Thresholds)
    requires AllHalfSafe(n, of, t)
    ensures NoLessSlack(used, total, used.Plus(n), total.Plus(of), t)
  {
    SlackPlus(used.cru, total.cru, n.cru, of.cru, t.cru);
    SlackPlus(used.sru, total.sru, n.sru, of.sru, t.sru);
    SlackPlus(used.mru, total.mru, n.mru, of.mru, t.mru);
    SlackPlus(used.hru, total.hru, n.hru, of.hru, t.hru);
    SlackIff(n.cru, of.cru, t.cru);
    SlackIff(n.sru, of.sru, t.sru);
    SlackIff(n.mru, of.mru, t.mru);
    SlackIff(n.hru, of.hru, t.hru);
  }

  lemma SlackBoth(used: Capacity, total: Capacity, used': Capacity, total': Capacity, n: Capacity, of: Capacity,
        t: Thresholds)
    requires NoLessSlack(used, total, used', total', t)
    ensures NoLessSlack(used.Plus(n), total.Plus(of), used'.Plus(n), total'.Plus(of), t)
  {
    SlackPlus(used.cru, total.cru, n.cru, of.cru, t.cru);
    SlackPlus(used.sru, total.sru, n.sru, of.sru, t.sru);
    SlackPlus(used.mru, total.mru, n.mru, of.mru, t.mru);
    SlackPlus(used.hru, total.hru, n.hru, of.hru, t.hru);
    SlackPlus(used'.cru, total'.cru, n.cru, of.cru, t.cru);
    SlackPlus(used'.sru, total'.sru, n.sru, of.sru, t.sru);
    SlackPlus(used'.mru, total'.mru, n.mru, of.mru, t.mru);
    SlackPlus(used'.hru, total'.hru, n.hru, of.hru, t.hru);
  }

  predicate HalfSafeNode(n: Node, t: Thresholds) { AllHalfSafe(Usage(n), n.total, t) }

  /** Counting nodes again that are half-way safe themselves costs no slack. */
  lemma {:induction false} CountedAgain(nodes: seq<Node>, fewer: set<NodeId>, removed: set<NodeId>, t: Thresholds)
    requires fewer <= removed
    requires forall n | n in nodes && n.Id() in removed && n.Id() !in fewer :: HalfSafeNode(n, t)
    ensures NoLessSlack(UsedSum(nodes, removed), TotalSum(nodes, removed), UsedSum(nodes, fewer),
        TotalSum(nodes, fewer), t)
    decreases |nodes|
  {
    if nodes != [] {
      var init, last := nodes[..|nodes| - 1], nodes[|nodes| - 1];
      assert last in nodes;
      CountedAgain(init, fewer, removed, t);
      var used, total := UsedSum(init, fewer), TotalSum(init, fewer);
      if last.Id() !in removed {
        SlackBoth(UsedSum(init, removed), TotalSum(init, removed), used, total, Usage(last), last.total, t);
      } else if last.Id() !in fewer {
        SlackPlusAll(used, total, Usage(last), last.total, t);
      }
    }
  }

  // ----- The nodes that stay on -------------------------------------------------------------

  /** The nodes that went down. */
  function Downs(before: seq<Node>, after: seq<Node>): set<NodeId>
    requires |before| == |after|
    decreases |before|
  {
    if before == [] then {}
    else
      var k := |before| - 1;
      Downs(before[..k], after[..k]) + (if after[k] != before[k] then {before[k].Id()} else {})
  }

  lemma {:induction false} DownsAre(before: seq<Node>, after: seq<Node>, id: NodeId)
    requires |before| == |after|
    ensures id in Downs(before, after) <==>
              exists i | 0 <= i < |before| :: after[i] != before[i] && before[i].Id() == id
    decreases |before|
  {
    if before != [] {
      var k := |before| - 1;
      DownsAre(before[..k], after[..k], id);
      if i :| 0 <= i < |before| && after[i] != before[i] && before[i].Id() == id && i < k {
        assert after[..k][i] != before[..k][i];
      }
      if i :| 0 <= i < k && after[..k][i] != before[..k][i] && before[..k][i].Id() == id {
        assert after[i] != before[i] && before[i].Id() == id;
      }
    }
  }

  /** Apart from nodes in `down`, which are off or going off, nothing differs. */
  predicate WentDown(before: seq<Node>, after: seq<Node>, down: set<NodeId>) {
    && |before| == |after|
    && forall i | 0 <= i < |before| ::
         if before[i].Id() in down then after[i].power == ShuttingDown else after[i] == before[i]
  }

  lemma SumsNext(nodes: seq<Node>, removed: set<NodeId>, n: Node)
    ensures UsedSum(nodes + [n], removed)
         == if n.Id() in removed then UsedSum(nodes, removed) else UsedSum(nodes, removed).Plus(Usage(n))
    ensures TotalSum(nodes + [n], removed)
         == if n.Id() in removed then TotalSum(nodes, removed) else TotalSum(nodes, removed).Plus(n.total)
  {
    assert (nodes + [n])[..|nodes|] == nodes;
  }

  lemma OnlineNext(nodes: seq<Node>, n: Node)
    ensures Online(nodes + [n]) == Online(nodes) + (if n.power in {On, WakingUp} then [n] else [])
  {
    assert (nodes + [n])[..|nodes|] == nodes;
  }

  lemma OnlineSums(nodes: seq<Node>, removed: set<NodeId>, n: Node)
    ensures UsedSum(Online(nodes + [n]), removed)
         == if n.power in {On, WakingUp} && n.Id() !in removed then UsedSum(Online(nodes), removed).Plus(Usage(n))
            else UsedSum(Online(nodes), removed)
    ensures TotalSum(Online(nodes + [n]), removed)
         == if n.power in {On, WakingUp} && n.Id() !in removed then TotalSum(Online(nodes), removed).Plus(n.total)
            else TotalSum(Online(nodes), removed)
  {
    OnlineNext(nodes, n);
    if n.power in {On, WakingUp} {
      SumsNext(Online(nodes), removed, n);
    } else {
      assert Online(nodes) + [] == Online(nodes);
    }
  }

  /** The amounts of the nodes online are those of `before` without what went down. */
  predicate SameAmounts(before: seq<Node>, after: seq<Node>, down: set<NodeId>) {
    && UsedSum(Online(after), {}) == UsedSum(Online(before), down)
    && TotalSum(Online(after), {}) == TotalSum(Online(before), down)
  }

  lemma SameAmountsNext(before: seq<Node>, after: seq<Node>, down: set<NodeId>, b: Node, a: Node)
    requires SameAmounts(before, after, down) && if b.Id() in down then a.power == ShuttingDown else a == b
    ensures SameAmounts(before + [b], after + [a], down)
  {
    OnlineSums(before, down, b);
    OnlineSums(after, {}, a);
  }

  lemma {:induction false} OnlineAfter(before: seq<Node>, after: seq<Node>, down: set<NodeId>)
    requires WentDown(before, after, down)
    ensures SameAmounts(before, after, down)
    decreases |before|
  {
    if before == [] {
      assert after == [];
    } else {
      var k := |before| - 1;
      OnlineAfter(before[..k], after[..k], down);
      SameAmountsNext(before[..k], after[..k], down, before[k], after[k]);
      assert before[..k] + [before[k]] == before && after[..k] + [after[k]] == after;
    }
  }

  /** The idle nodes are themselves half-way safe. */
  predicate IdleHalfSafe(nodes: seq<Node>, now: Time, t: Thresholds) {
    forall n | n in Candidates(nodes, now) :: HalfSafeNode(n, t)
  }

  /** No power-off fails on the chain and is recorded all the same. */
  predicate NoneRecorded(nodes: seq<Node>, now: Time, answers: NodeId -> OffAnswer) {
    forall n | n in Candidates(nodes, now) :: answers(n.Id()) != Rejected(Some(true))
  }

  /** If any node went down, those left of the nodes that were on or waking are half-way safe. */
  ghost predicate Margin(nodes: seq<Node>, after: seq<Node>, t: Thresholds) {
    && |after| == |nodes|
    && var down := Downs(nodes, after);
       down != {} ==> AllHalfSafe(UsedSum(Online(nodes), down), TotalSum(Online(nodes), down), t)
  }

  /** What went down is no longer counted. */
  lemma DownIsRemoved(nodes: seq<Node>, now: Time, t: Thresholds, answers: NodeId -> OffAnswer, k: nat)
    requires UniqueIds(nodes) && k <= |Candidates(nodes, now)| && NoneRecorded(nodes, now, answers)
    ensures var s := ConsiderAll(StartShrink(nodes), Candidates(nodes, now)[..k], now, t, answers);
            && |s.nodes| == |nodes| && Downs(nodes, s.nodes) <= s.removed
            && WentDown(nodes, s.nodes, Downs(nodes, s.nodes))
  {
    var cs := Candidates(nodes, now);
    var s := ConsiderAll(StartShrink(nodes), cs[..k], now, t, answers);
    BooksAreKept(nodes, now, t, answers, k);
    forall i | 0 <= i < |nodes|
      ensures nodes[i].Id() in Downs(nodes, s.nodes) <==> s.nodes[i] != nodes[i]
      ensures s.nodes[i] != nodes[i] ==> s.nodes[i].power == ShuttingDown && nodes[i].Id() in s.removed
    {
      DownsAre(nodes, s.nodes, nodes[i].Id());
      BookedDown(nodes, now, s, k, answers, i);
    }
    forall id | id in Downs(nodes, s.nodes) ensures id in s.removed { DownsAre(nodes, s.nodes, id); }
  }

  lemma BookedDown(nodes: seq<Node>, now: Time, s: Shrink, k: nat, answers: NodeId -> OffAnswer, i: nat)
    requires UniqueIds(nodes) && k <= |Candidates(nodes, now)| && NoneRecorded(nodes, now, answers)
    requires i < |nodes| && AllBooked(nodes, s, IdSet(Candidates(nodes, now)[..k]), answers)
    ensures s.nodes[i] != nodes[i] ==> s.nodes[i].power == ShuttingDown && nodes[i].Id() in s.removed
  {
    var cs, id := Candidates(nodes, now), nodes[i].Id();
    assert Booked(nodes[i], s.nodes[i], s, id in IdSet(cs[..k]), answers(id));
    if s.nodes[i] != nodes[i] {
      var j := IdSetOf(cs[..k], id);
      assert cs[j] in cs && answers(cs[j].Id()) != Rejected(Some(true));
    }
  }

  /** A power-off on exact sums without overuse leaves the counted nodes half-way safe. */
  lemma TakenOutIsHalfSafe(nodes: seq<Node>, s: Shrink, n: Node, t: Thresholds)
    requires AllPositive(nodes) && Percentages(t) && NoneOverused(nodes) && Exact(nodes, s, n)
    requires var out := TakeOut(s, n); MeetDemand(out.total, out.used, Demands(out.total, out.used, t))
    ensures AllHalfSafe(TakeOut(s, n).used, TakeOut(s, n).total, t)
  {
    var removed := s.removed + {n.Id()};
    OnlinePositive(nodes, removed);
    InStateOnly(nodes, {On, WakingUp});
    SumsWithin(Online(nodes), removed);
    AllMeetDemandIff(TakeOut(s, n).used, TakeOut(s, n).total, t);
  }

  /** One candidate that is put to sleep. */
  lemma MarginNext(nodes: seq<Node>, now: Time, t: Thresholds, answers: NodeId -> OffAnswer, k: nat)
    requires UniqueIds(nodes) && AllPositive(nodes) && Percentages(t) && NoneOverused(nodes) && OnCount(nodes) > 1
    requires IdleHalfSafe(nodes, now, t) && NoneRecorded(nodes, now, answers) && k < |Candidates(nodes, now)|
    requires var cs := Candidates(nodes, now);
             ConsiderAll(StartShrink(nodes), cs[..k + 1], now, t, answers).nodes
             != ConsiderAll(StartShrink(nodes), cs[..k], now, t, answers).nodes
    ensures Margin(nodes, ConsiderAll(StartShrink(nodes), Candidates(nodes, now)[..k + 1], now, t, answers).nodes, t)
  {
    var cs := Candidates(nodes, now);
    var s := ConsiderAll(StartShrink(nodes), cs[..k], now, t, answers);
    var r := ConsiderAll(StartShrink(nodes), cs[..k + 1], now, t, answers);
    ConsiderNext(StartShrink(nodes), cs, k, now, t, answers);
    ShrinkIsExact(nodes, now, t, answers, k);
    ShrinkIsExact(nodes, now, t, answers, k + 1);
    NextIsExact(nodes, now, s, k);
    PutToSleep(s, cs[k], now, t, answers(cs[k].Id()));
    TakenOutIsHalfSafe(nodes, s, cs[k], t);
    DownIsRemoved(nodes, now, t, answers, k + 1);
    RemovedAreIdle(nodes, now, t, r.removed, k + 1);
    var down := Downs(nodes, r.nodes);
    CountedAgain(Online(nodes), down, r.removed, t);
    SlackKeepsHalfSafe(r.used, r.total, UsedSum(Online(nodes), down), TotalSum(Online(nodes), down), t);
  }

  /** A candidate that changes the list was found dispensable, and is taken out unless the chain
      rejected its power-off. */
  lemma PutToSleep(s: Shrink, n: Node, now: Time, t: Thresholds, answer: OffAnswer)
    requires Consider(s, n, now, t, answer).nodes != s.nodes && answer != Rejected(Some(true))
    ensures var out := TakeOut(s, n);
            && s.left != 1 && MeetDemand(out.total, out.used, Demands(out.total, out.used, t))
            && Consider(s, n, now, t, answer).removed == out.removed
            && Consider(s, n, now, t, answer).used == out.used && Consider(s, n, now, t, answer).total == out.total
  {
  }

  lemma RemovedAreIdle(nodes: seq<Node>, now: Time, t: Thresholds, removed: set<NodeId>, k: nat)
    requires UniqueIds(nodes) && IdleHalfSafe(nodes, now, t) && k <= |Candidates(nodes, now)|
    requires removed <= IdSet(Candidates(nodes, now)[..k])
    ensures forall n | n in Online(nodes) && n.Id() in removed :: HalfSafeNode(n, t)
  {
    var cs := Candidates(nodes, now);
    InStateOnly(nodes, {On, WakingUp});
    CandidatesOnly(nodes, now);
    forall n | n in Online(nodes) && n.Id() in removed ensures HalfSafeNode(n, t) {
      var j := IdSetOf(cs[..k], n.Id());
      assert cs[j] in cs && cs[j] in nodes && n in nodes;
      var a :| 0 <= a < |nodes| && nodes[a] == n;
      var b :| 0 <= b < |nodes| && nodes[b] == cs[j];
      assert a == b;
    }
  }

  lemma {:induction false} MarginKept(nodes: seq<Node>, now: Time, t: Thresholds, answers: NodeId -> OffAnswer, k: nat)
    requires UniqueIds(nodes) && AllPositive(nodes) && Percentages(t) && NoneOverused(nodes) && OnCount(nodes) > 1
    requires IdleHalfSafe(nodes, now, t) && NoneRecorded(nodes, now, answers) && k <= |Candidates(nodes, now)|
    ensures Margin(nodes, ConsiderAll(StartShrink(nodes), Candidates(nodes, now)[..k], now, t, answers).nodes, t)
    decreases k
  {
    if k == 0 {
      NoneDown(nodes);
    } else {
      MarginKept(nodes, now, t, answers, k - 1);
      var cs := Candidates(nodes, now);
      if ConsiderAll(StartShrink(nodes), cs[..k], now, t, answers).nodes
         != ConsiderAll(StartShrink(nodes), cs[..k - 1], now, t, answers).nodes {
        MarginNext(nodes, now, t, answers, k - 1);
      }
    }
  }

  lemma NoneDown(nodes: seq<Node>)
    ensures Downs(nodes, nodes) == {}
  {
    if id :| id in Downs(nodes, nodes) { DownsAre(nodes, nodes, id); }
  }

  /** In a farm where no node that is on or waking is used beyond its total, the idle ones are
      half-way safe themselves, and no power-off is rejected and yet recorded: if the loop puts
      any node to sleep, the nodes that stay on are half-way safe together. */
  lemma StayingOnIsHalfSafe(nodes: seq<Node>, now: Time, t: Thresholds, answers: NodeId -> OffAnswer)
    requires UniqueIds(nodes) && AllPositive(nodes) && Percentages(t) && NoneOverused(nodes)
    requires IdleHalfSafe(nodes, now, t) && NoneRecorded(nodes, now, answers)
    requires TooLow(nodes, now, t, answers).nodes != nodes
    ensures var after := TooLow(nodes, now, t, answers).nodes;
            AllHalfSafe(UsedSum(Online(after), {}), TotalSum(Online(after), {}), t)
  {
    var cs, after := Candidates(nodes, now), TooLow(nodes, now, t, answers).nodes;
    assert cs[..|cs|] == cs;
    MarginKept(nodes, now, t, answers, |cs|);
    DownIsRemoved(nodes, now, t, answers, |cs|);
    SomeDown(nodes, after);
    OnlineAfter(nodes, after, Downs(nodes, after));
  }

  lemma SomeDown(before: seq<Node>, after: seq<Node>)
    requires |before| == |after| && before != after
    ensures Downs(before, after) != {}
  {
    var i :| 0 <= i < |before| && after[i] != before[i];
    DownsAre(before, after, before[i].Id());
  }

  // ----- An over-provisioned node ---------------------------------------------------------

  function OnNode(id: NodeId, cru: nat, used: nat): Node {
    Node(ChainNode(id, id, NOTHING, false, false), Capacity(cru, 100, 100, 0), Capacity(used, 0, 0, 0), NOTHING, 0, [],
         false, false, false, false, On, 0, 0, 0, 0, 0)
  }

  function Accepts(id: NodeId): OffAnswer { Accepted }

  lemma IdleRound(nodes: seq<Node>, now: Time, t: Thresholds, chain: Chain)
    requires OnlineDemand(nodes, t).IsEmpty()
    ensures var s := TooLow(nodes, now, t, chain.turnsOff);
            Manage(nodes, now, t, chain) == Managed(s.nodes, true, s.issued)
  {
  }

  lemma NoDemandYet(a: Node, b: Node, t: Thresholds)
    requires a == OnNode(1, 10, 40) && b == OnNode(2, 100, 0) && t == Thresholds(80.0, 80.0, 80.0, 80.0)
    ensures OnlineDemand([a, b], t) == NOTHING
  {
    TwoOn(a, b);
    DemandIs(40, 110, 80.0);
    DemandIs(0, 200, 80.0);
  }

  lemma TwoOn(a: Node, b: Node)
    requires a.power == On && b.power == On && !a.rented && !b.rented
    ensures Online([a, b]) == [a, b] && OnCount([a, b]) == 2
    ensures UsedSum([a, b], {}) == a.used.Plus(b.used) && TotalSum([a, b], {}) == a.total.Plus(b.total)
  {
    assert [a, b][..1] == [a] && [a][..0] == [];
    assert InState([a], {On, WakingUp}) == [a] && InState([a], {On}) == [a];
    assert UsedSum([a], {}) == a.used && TotalSum([a], {}) == a.total;
  }

  lemma LastToSleep(a: Node, b: Node, t: Thresholds)
    requires a == OnNode(1, 10, 40) && b == OnNode(2, 100, 0) && t == Thresholds(80.0, 80.0, 80.0, 80.0)
    ensures var s := TooLow([a, b], WAKE_UP_DURATION, t, Accepts);
            && s.nodes == [a, GoingDown(b, WAKE_UP_DURATION)]
            && |s.issued| == 1 && !AllHalfSafe(s.issued[0].used, s.issued[0].total, t)
  {
    TwoOn(a, b);
    assert [a, b][..1] == [a] && [a][..0] == [];
    assert !a.CanShutDown(WAKE_UP_DURATION) && b.CanShutDown(WAKE_UP_DURATION);
    assert Candidates([a], WAKE_UP_DURATION) == [];
    assert Candidates([a, b], WAKE_UP_DURATION) == [b];
    var out := TakeOut(StartShrink([a, b]), b);
    assert out.used == Capacity(40, 0, 0, 0) && out.total == Capacity(10, 100, 100, 0);
    OverMeetsDemand(out.total, out.used, t);
    assert IndexOf([a, b], 2) == Some(1);
    assert ConsiderAll(StartShrink([a, b]), [b][..0], WAKE_UP_DURATION, t, Accepts) == StartShrink([a, b]);
  }

  lemma OverMeetsDemand(total: Capacity, used: Capacity, t: Thresholds)
    requires total == Capacity(10, 100, 100, 0) && used == Capacity(40, 0, 0, 0)
        && t == Thresholds(80.0, 80.0, 80.0, 80.0)
    ensures MeetDemand(total, used, Demands(total, used, t)) && !AllHalfSafe(used, total, t)
  {
    DemandIs(40, 10, 80.0);
    assert Demand(40, 10, 80.0) == 32;
    assert Demand(0, 100, 80.0) == 0 by { DemandIs(0, 100, 80.0); }
    OverIsNotHalfSafe(40, 10, 80.0);
  }

  /** A round that puts the idle one of two nodes to sleep and leaves 40 used of 10: with both
      on the use is below the threshold, and with one the remaining capacity wraps around. */
  lemma OverusePasses(a: Node, b: Node, t: Thresholds)
    requires a == OnNode(1, 10, 40) && b == OnNode(2, 100, 0) && t == Thresholds(80.0, 80.0, 80.0, 80.0)
    ensures UniqueIds([a, b]) && AllPositive([a, b]) && OnlineDemand([a, b], t).IsEmpty()
    ensures var m := Manage([a, b], WAKE_UP_DURATION, t, Chain(_ => true, Accepts));
            && m.nodes == [a, GoingDown(b, WAKE_UP_DURATION)]
            && |m.issued| == 1 && !AllHalfSafe(m.issued[0].used, m.issued[0].total, t)
  {
    NoDemandYet(a, b, t);
    LastToSleep(a, b, t);
    IdleRound([a, b], WAKE_UP_DURATION, t, Chain(_ => true, Accepts));
  }

  // ----- A rejected power-off that is recorded ----------------------------------------------

  function RejectsSecond(id: NodeId): OffAnswer { if id == 2 then Rejected(Some(true)) else Accepts(id) }

  predicate ThreeNodes(a: Node, b: Node, c: Node, t: Thresholds) {
    && a == OnNode(1, 100, 95) && b == OnNode(2, 100, 0) && c == OnNode(3, 100, 0)
    && t == Thresholds(80.0, 80.0, 80.0, 80.0)
  }

  lemma ThreeOn(a: Node, b: Node, c: Node)
    requires a.power == On && b.power == On && c.power == On && !a.rented && !b.rented && !c.rented
    ensures Online([a, b, c]) == [a, b, c] && OnCount([a, b, c]) == 3
    ensures UsedSum([a, b, c], {}) == a.used.Plus(b.used).Plus(c.used)
    ensures TotalSum([a, b, c], {}) == a.total.Plus(b.total).Plus(c.total)
  {
    TwoOn(a, b);
    assert [a, b, c][..2] == [a, b];
    assert InState([a, b], {On}) == [a, b] by { assert [a, b][..1] == [a] && [a][..0] == []; }
  }

  lemma ThreeCandidates(a: Node, b: Node, c: Node, t: Thresholds)
    requires ThreeNodes(a, b, c, t)
    ensures Candidates([a, b, c], WAKE_UP_DURATION) == [b, c]
  {
    assert [a, b, c][..2] == [a, b] && [a, b][..1] == [a] && [a][..0] == [];
    assert Candidates([a], WAKE_UP_DURATION) == [];
    assert Candidates([a, b], WAKE_UP_DURATION) == [b];
  }

  lemma NoDemandOfThree(total: Capacity, used: Capacity, t: Thresholds)
    requires total == Capacity(300, 300, 300, 0) && used == Capacity(95, 0, 0, 0)
        && t == Thresholds(80.0, 80.0, 80.0, 80.0)
    ensures Demands(total, used, t) == NOTHING
  {
    DemandIs(95, 300, 80.0);
    DemandIs(0, 300, 80.0);
  }

  lemma IdleNode(n: Node, t: Thresholds)
    requires n == OnNode(n.Id(), 100, 0) && t == Thresholds(80.0, 80.0, 80.0, 80.0)
    ensures HalfSafeNode(n, t)
  {
  }

  lemma TwoMeetDemand(total: Capacity, used: Capacity, t: Thresholds)
    requires total == Capacity(200, 200, 200, 0) && used == Capacity(95, 0, 0, 0)
        && t == Thresholds(80.0, 80.0, 80.0, 80.0)
    ensures MeetDemand(total, used, Demands(total, used, t))
  {
    DemandIs(95, 200, 80.0);
    DemandIs(0, 200, 80.0);
  }

  /** The amounts as they were, and node 2 recorded as going down. */
  predicate SecondRecorded(s: Shrink, a: Node, b: Node, c: Node) {
    && s.nodes == [a, GoingDown(b, WAKE_UP_DURATION), c] && !s.stopped && s.left == 3
    && s.used == Capacity(95, 0, 0, 0) && s.total == Capacity(300, 300, 300, 0)
  }

  lemma StartOfThree(a: Node, b: Node, c: Node, t: Thresholds)
    requires ThreeNodes(a, b, c, t)
    ensures StartShrink([a, b, c])
         == Shrink([a, b, c], Capacity(95, 0, 0, 0), Capacity(300, 300, 300, 0), 3, false, {}, [])
  {
    ThreeOn(a, b, c);
  }

  /** A power-off that is rejected and recorded leaves the amounts as they were. */
  lemma ConsiderRecorded(s: Shrink, n: Node, i: nat, now: Time, t: Thresholds)
    requires !s.stopped && s.left != 1 && n.power == On && MayPowerOff(n, now) && OnCount(s.nodes) >= 2
    requires IndexOf(s.nodes, n.Id()) == Some(i) && s.nodes[i] == n
    requires var out := TakeOut(s, n);
             !out.total.IsEmpty() && MeetDemand(out.total, out.used, Demands(out.total, out.used, t))
    ensures var r := Consider(s, n, now, t, Rejected(Some(true)));
            r == s.(nodes := s.nodes[i := GoingDown(n, now)], issued := r.issued)
  {
  }

  lemma IndexIs(nodes: seq<Node>, i: nat)
    requires UniqueIds(nodes) && i < |nodes|
    ensures IndexOf(nodes, nodes[i].Id()) == Some(i)
  {
  }

  lemma SecondIsDispensable(s: Shrink, a: Node, b: Node, c: Node, t: Thresholds)
    requires ThreeNodes(a, b, c, t)
    requires s.used == Capacity(95, 0, 0, 0) && s.total == Capacity(300, 300, 300, 0)
    ensures var out := TakeOut(s, b);
            !out.total.IsEmpty() && MeetDemand(out.total, out.used, Demands(out.total, out.used, t))
  {
    TwoMeetDemand(TakeOut(s, b).total, TakeOut(s, b).used, t);
  }

  lemma SecondStaysCounted(s: Shrink, a: Node, b: Node, c: Node, t: Thresholds)
    requires ThreeNodes(a, b, c, t) && OnCount([a, b, c]) == 3
    requires s == Shrink([a, b, c], Capacity(95, 0, 0, 0), Capacity(300, 300, 300, 0), 3, false, {}, [])
    ensures SecondRecorded(Consider(s, b, WAKE_UP_DURATION, t, Rejected(Some(true))), a, b, c)
  {
    SecondIsDispensable(s, a, b, c, t);
    IndexIs(s.nodes, 1);
    assert MayPowerOff(b, WAKE_UP_DURATION);
    ConsiderRecorded(s, b, 1, WAKE_UP_DURATION, t);
  }

  lemma ThirdGoes(s: Shrink, a: Node, b: Node, c: Node, t: Thresholds)
    requires ThreeNodes(a, b, c, t) && SecondRecorded(s, a, b, c) && OnCount(s.nodes) == 2
    ensures Consider(s, c, WAKE_UP_DURATION, t, Accepted).nodes
         == [a, GoingDown(b, WAKE_UP_DURATION), GoingDown(c, WAKE_UP_DURATION)]
  {
    TwoMeetDemand(TakeOut(s, c).total, TakeOut(s, c).used, t);
    IndexIs(s.nodes, 2);
  }

  lemma TwoOnLeft(a: Node, b: Node, c: Node)
    requires a.power == On && b.power == On && c.power == On && !a.rented && !b.rented && !c.rented
    ensures OnCount([a, GoingDown(b, WAKE_UP_DURATION), c]) == 2
  {
    ThreeOn(a, b, c);
    OnCountAfterUpdate([a, b, c], 1, GoingDown(b, WAKE_UP_DURATION));
    assert [a, b, c][1 := GoingDown(b, WAKE_UP_DURATION)] == [a, GoingDown(b, WAKE_UP_DURATION), c];
  }

  lemma ThreeNoDemand(nodes: seq<Node>, t: Thresholds)
    requires TotalSum(Online(nodes), {}) == Capacity(300, 300, 300, 0)
    requires UsedSum(Online(nodes), {}) == Capacity(95, 0, 0, 0) && t == Thresholds(80.0, 80.0, 80.0, 80.0)
    ensures OnlineDemand(nodes, t) == NOTHING
  {
    NoDemandOfThree(TotalSum(Online(nodes), {}), UsedSum(Online(nodes), {}), t);
  }

  lemma ThreeIdle(a: Node, b: Node, c: Node, t: Thresholds)
    requires ThreeNodes(a, b, c, t)
    ensures IdleHalfSafe([a, b, c], WAKE_UP_DURATION, t)
  {
    ThreeCandidates(a, b, c, t);
    IdleNode(b, t);
    IdleNode(c, t);
  }

  lemma BothConsidered(s: Shrink, b: Node, c: Node, now: Time, t: Thresholds, answers: NodeId -> OffAnswer)
    ensures ConsiderAll(s, [b, c], now, t, answers)
         == Consider(Consider(s, b, now, t, answers(b.Id())), c, now, t, answers(c.Id()))
  {
    ConsiderNext(s, [b, c], 0, now, t, answers);
    ConsiderNext(s, [b, c], 1, now, t, answers);
    assert [b, c][..0] == [] && [b, c][..2] == [b, c];
  }

  lemma TooLowOfTwo(nodes: seq<Node>, b: Node, c: Node, now: Time, t: Thresholds, answers: NodeId -> OffAnswer)
    requires OnCount(nodes) > 1 && Candidates(nodes, now) == [b, c]
    ensures TooLow(nodes, now, t, answers)
         == Consider(Consider(StartShrink(nodes), b, now, t, answers(b.Id())), c, now, t, answers(c.Id()))
  {
    BothConsidered(StartShrink(nodes), b, c, now, t, answers);
  }

  /** The loop on the three nodes. */
  lemma ThreeConsidered(a: Node, b: Node, c: Node, t: Thresholds, s: Shrink)
    requires ThreeNodes(a, b, c, t) && s == StartShrink([a, b, c])
    ensures Consider(Consider(s, b, WAKE_UP_DURATION, t, Rejected(Some(true))), c, WAKE_UP_DURATION, t, Accepted).nodes
         == [a, GoingDown(b, WAKE_UP_DURATION), GoingDown(c, WAKE_UP_DURATION)]
  {
    StartOfThree(a, b, c, t);
    assert OnCount([a, b, c]) == 3 by { ThreeOn(a, b, c); }
    SecondStaysCounted(s, a, b, c, t);
    TwoOnLeft(a, b, c);
    ThirdGoes(Consider(s, b, WAKE_UP_DURATION, t, Rejected(Some(true))), a, b, c, t);
  }

  /** Everything but the answers is as it should be. */
  predicate ThreeGoodNodes(nodes: seq<Node>, t: Thresholds) {
    && UniqueIds(nodes) && AllPositive(nodes) && NoneOverused(nodes) && OnlineDemand(nodes, t) == NOTHING
    && IdleHalfSafe(nodes, WAKE_UP_DURATION, t)
  }

  lemma OneMoreOnline(nodes: seq<Node>, n: Node, used: Capacity, total: Capacity)
    requires n.power == On && !n.rented
    requires UsedSum(Online(nodes), {}) == used && TotalSum(Online(nodes), {}) == total
    ensures UsedSum(Online(nodes + [n]), {}) == used.Plus(n.used)
    ensures TotalSum(Online(nodes + [n]), {}) == total.Plus(n.total)
  {
    OnlineSums(nodes, {}, n);
  }

  lemma ThreeSums(a: Node, b: Node, c: Node, two: Capacity)
    requires a.power == On && b.power == On && c.power == On && !a.rented && !b.rented && !c.rented
    requires a.used.Plus(b.used) == a.used && a.used.Plus(c.used) == a.used && a.total.Plus(b.total) == two
    ensures UsedSum(Online([a, b, c]), {}) == a.used && TotalSum(Online([a, b, c]), {}) == two.Plus(c.total)
  {
    TwoOn(a, b);
    OneMoreOnline([a, b], c, a.used, two);
    assert [a, b] + [c] == [a, b, c];
  }

  lemma ThreeDemand(a: Node, b: Node, c: Node, t: Thresholds)
    requires ThreeNodes(a, b, c, t)
    ensures OnlineDemand([a, b, c], t) == NOTHING
  {
    ThreeSums(a, b, c, Capacity(200, 200, 200, 0));
    ThreeNoDemand([a, b, c], t);
  }

  lemma ThreeAreGood(a: Node, b: Node, c: Node, t: Thresholds)
    requires ThreeNodes(a, b, c, t)
    ensures ThreeGoodNodes([a, b, c], t)
  {
    ThreeDemand(a, b, c, t);
    ThreeIdle(a, b, c, t);
  }

  lemma ThreeSlept(a: Node, b: Node, c: Node, t: Thresholds)
    requires ThreeNodes(a, b, c, t)
    ensures TooLow([a, b, c], WAKE_UP_DURATION, t, RejectsSecond).nodes
         == [a, GoingDown(b, WAKE_UP_DURATION), GoingDown(c, WAKE_UP_DURATION)]
  {
    assert OnCount([a, b, c]) == 3 by { ThreeOn(a, b, c); }
    ThreeCandidates(a, b, c, t);
    ThreeConsidered(a, b, c, t, StartShrink([a, b, c]));
    TooLowOfTwo([a, b, c], b, c, WAKE_UP_DURATION, t, RejectsSecond);
  }

  /** Without overuse, with idle nodes: the power-off of node 2 is rejected and yet recorded, so
      node 3 is measured against node 2, and node 1 is left alone beyond the half-way point. */
  lemma RecordedIsStillCounted(a: Node, b: Node, c: Node, t: Thresholds)
    requires ThreeNodes(a, b, c, t)
    ensures ThreeGoodNodes([a, b, c], t)
    ensures TooLow([a, b, c], WAKE_UP_DURATION, t, RejectsSecond).nodes
         == [a, GoingDown(b, WAKE_UP_DURATION), GoingDown(c, WAKE_UP_DURATION)]
    ensures !AllHalfSafe(a.used, a.total, t)
  {
    ThreeAreGood(a, b, c, t);
    ThreeSlept(a, b, c, t);
  }
}
