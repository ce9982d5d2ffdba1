/** The periodic power manager: too much use wakes nodes up, too little puts unused nodes to
    sleep one after another. Ratios are exact; differences of unsigned numbers wrap around
    as they do in 64 bits. */
module FarmPower {
  import opened Wrappers
  import opened FarmTypes
  import opened FarmState

  // ----- Sums ---------------------------------------------------------------------------

  /** A rented node counts as used up. */
  function Usage(n: Node): Capacity {
    if n.rented then n.total else n.used
  }

  /** The use of the nodes that are not in `removed`. */
  function UsedSum(nodes: seq<Node>, removed: set<NodeId>): Capacity
    decreases |nodes|
  {
    if nodes == [] then NOTHING
    else
      var init, last := nodes[..|nodes| - 1], nodes[|nodes| - 1];
      if last.Id() in removed then UsedSum(init, removed) else UsedSum(init, removed).Plus(Usage(last))
  }

  function TotalSum(nodes: seq<Node>, removed: set<NodeId>): Capacity
    decreases |nodes|
  {
    if nodes == [] then NOTHING
    else
      var init, last := nodes[..|nodes| - 1], nodes[|nodes| - 1];
      if last.Id() in removed then TotalSum(init, removed) else TotalSum(init, removed).Plus(last.total)
  }

  lemma {:induction false} SumsWithout(nodes: seq<Node>, removed: set<NodeId>, id: NodeId)
    requires forall n | n in nodes :: n.Id() != id
    ensures UsedSum(nodes, removed + {id}) == UsedSum(nodes, removed)
    ensures TotalSum(nodes, removed + {id}) == TotalSum(nodes, removed)
    decreases |nodes|
  {
    if nodes != [] { SumsWithout(nodes[..|nodes| - 1], removed, id); }
  }

  /** Taking out one more node takes out exactly its share, all of it if it is rented. */
  lemma {:induction false} SumsRemove(nodes: seq<Node>, removed: set<NodeId>, i: nat)
    requires UniqueIds(nodes) && i < |nodes| && nodes[i].Id() !in removed
    ensures var id := nodes[i].Id();
            && UsedSum(nodes, removed)
            == UsedSum(nodes, removed + {id}).Plus(if nodes[i].rented then nodes[i].total else nodes[i].used)
            && TotalSum(nodes, removed) == TotalSum(nodes, removed + {id}).Plus(nodes[i].total)
    decreases |nodes|
  {
    var k := |nodes| - 1;
    if i == k {
      forall n | n in nodes[..k] ensures n.Id() != nodes[i].Id() {
        var j :| 0 <= j < k && nodes[..k][j] == n;
      }
      SumsWithout(nodes[..k], removed, nodes[i].Id());
    } else {
      SumsRemove(nodes[..k], removed, i);
    }
  }

  predicate Positive(n: Node) { n.total.cru > 0 && n.total.sru > 0 && n.total.mru > 0 }

  predicate AllPositive(nodes: seq<Node>) {
    forall n | n in nodes :: Positive(n)
  }

  lemma {:induction false} TotalsPositive(nodes: seq<Node>, removed: set<NodeId>, i: nat)
    requires AllPositive(nodes) && i < |nodes| && nodes[i].Id() !in removed
    ensures TotalSum(nodes, removed).cru > 0 && TotalSum(nodes, removed).sru > 0 && TotalSum(nodes, removed).mru > 0
    decreases |nodes|
  {
    assert Positive(nodes[i]);
    if i < |nodes| - 1 { TotalsPositive(nodes[..|nodes| - 1], removed, i); }
  }

  // ----- Demand --------------------------------------------------------------------------

  datatype Thresholds = Thresholds(cru: real, sru: real, mru: real, hru: real)

  predicate Percentages(t: Thresholds) {
    0.0 <= t.cru <= 100.0 && 0.0 <= t.sru <= 100.0 && 0.0 <= t.mru <= 100.0 && 0.0 <= t.hru <= 100.0
  }

  function Ceil(x: real): int { -((-x).Floor) }

  /** Infinity less a threshold, times zero, is not a number; converting that to 64 bits
      gives this on common hardware. */
  const NAN_AS_WORD: nat := 0x8000_0000_0000_0000

  function Percent(used: nat, total: nat): real
    requires total > 0
  {
    used as real / total as real * 100.0
  }

  /** How much more would be needed to get back to the threshold. Without any total, no use
      compares as below it and some use as infinitely above. */
  function Demand(used: nat, total: nat, threshold: real): nat {
    if total == 0 then (if used == 0 then 0 else NAN_AS_WORD)
    else if Percent(used, total) > threshold then
      var d := (Percent(used, total) - threshold) / 100.0 * total as real;
      DemandPositive(used, total, threshold);
      Ceil(d)
    else 0
  }

  lemma DemandPositive(used: nat, total: nat, threshold: real)
    requires total > 0 && Percent(used, total) > threshold
    ensures Ceil((Percent(used, total) - threshold) / 100.0 * total as real) > 0
  {
    var f := (Percent(used, total) - threshold) / 100.0;
    assert f > 0.0;
    assert f * total as real > 0.0;
  }

  function Demands(total: Capacity, used: Capacity, t: Thresholds): Capacity {
    Capacity(Demand(used.cru, total.cru, t.cru), Demand(used.sru, total.sru, t.sru),
             Demand(used.mru, total.mru, t.mru), if total.hru > 0 then Demand(used.hru, total.hru, t.hru) else 0)
  }

  function Remaining(total: nat, used: nat): nat { (total - used) % WORD }

  predicate MeetDemand(total: Capacity, used: Capacity, demand: Capacity) {
    && Remaining(total.cru, used.cru) >= demand.cru
    && Remaining(total.sru, used.sru) >= demand.sru
    && Remaining(total.mru, used.mru) >= demand.mru
    && Remaining(total.hru, used.hru) >= demand.hru
  }

  /** Half way between the threshold and full: 200 used <= (100 + threshold) total. */
  predicate HalfSafe(used: nat, total: nat, threshold: real) {
    200.0 * used as real <= (100.0 + threshold) * total as real
  }

  predicate AllHalfSafe(used: Capacity, total: Capacity, t: Thresholds) {
    && HalfSafe(used.cru, total.cru, t.cru) && HalfSafe(used.sru, total.sru, t.sru)
    && HalfSafe(used.mru, total.mru, t.mru) && HalfSafe(used.hru, total.hru, t.hru)
  }

  lemma DemandIs(used: nat, total: nat, threshold: real)
    requires total > 0
    ensures (Percent(used, total) - threshold) / 100.0 * total as real
         == used as real - threshold * total as real / 100.0
    ensures Percent(used, total) > threshold <==> 100.0 * used as real > threshold * total as real
  {
    var u, t := used as real, total as real;
    var q := u / t;
    assert q * t == u;
    assert (q * 100.0 - threshold) / 100.0 * t == q * t - threshold * t / 100.0;
    if q * 100.0 > threshold { assert q * 100.0 * t > threshold * t; }
    if q * 100.0 <= threshold { assert q * 100.0 * t <= threshold * t; }
  }

  lemma CeilIs(x: real)
    ensures x <= Ceil(x) as real < x + 1.0
  {
  }

  /** The demand is the least amount whose removal brings the use back to the threshold. */
  lemma DemandIsLeast(used: nat, total: nat, threshold: real)
    requires total > 0
    ensures var d := Demand(used, total, threshold);
            && 100.0 * (used - d) as real <= threshold * total as real
            && (d > 0 ==> 100.0 * (used - (d - 1)) as real > threshold * total as real)
  {
    DemandIs(used, total, threshold);
    var least := used as real - threshold * total as real / 100.0;
    var d := Demand(used, total, threshold);
    if Percent(used, total) > threshold {
      CeilIs(least);
      assert d == Ceil(least);
    }
  }

  lemma OverIsNotHalfSafe(used: nat, total: nat, threshold: real)
    requires used > total && 0.0 <= threshold <= 100.0
    ensures !HalfSafe(used, total, threshold)
  {
    var t := total as real;
    assert (100.0 + threshold) * t <= 200.0 * t;
  }

  /** When the remaining-capacity test passes, the use stays half-way safe exactly when it is
      within the total: beyond it the subtraction wraps around and the test says nothing. */
  lemma MeetDemandIff(used: nat, total: nat, threshold: real)
    requires 0.0 <= threshold <= 100.0 && (total > 0 || used == 0)
    requires Remaining(total, used) >= Demand(used, total, threshold)
    ensures HalfSafe(used, total, threshold) <==> used <= total
  {
    if used > total {
      OverIsNotHalfSafe(used, total, threshold);
    } else if total > 0 {
      DemandIs(used, total, threshold);
      var u, t := used as real, total as real;
      assert Remaining(total, used) <= total - used by {
        RemainingAtMost(total - used);
      }
      if Percent(used, total) > threshold {
        var d := (Percent(used, total) - threshold) / 100.0 * t;
        assert Ceil(d) as real >= d;
        assert t - u >= u - threshold * t / 100.0;
      } else {
        assert threshold * t <= 100.0 * t;
      }
    }
  }

  lemma RemainingAtMost(d: nat)
    ensures d % WORD <= d
  {
  }

  lemma AllMeetDemandIff(used: Capacity, total: Capacity, t: Thresholds)
    requires Percentages(t) && total.cru > 0 && total.sru > 0 && total.mru > 0
    requires MeetDemand(total, used, Demands(total, used, t))
    ensures AllHalfSafe(used, total, t) <==> used.AtMost(total)
  {
    MeetDemandIff(used.cru, total.cru, t.cru);
    MeetDemandIff(used.sru, total.sru, t.sru);
    MeetDemandIff(used.mru, total.mru, t.mru);
    if total.hru > 0 { MeetDemandIff(used.hru, total.hru, t.hru); }
  }

  // ----- Too little use -------------------------------------------------------------------

  /** The nodes that may be put to sleep, in order. */
  function Candidates(nodes: seq<Node>, now: Time): seq<Node>
    decreases |nodes|
  {
    if nodes == [] then []
    else
      var init, last := nodes[..|nodes| - 1], nodes[|nodes| - 1];
      Candidates(init, now) + (if last.CanShutDown(now) then [last] else [])
  }

  lemma {:induction false} CandidatesOnly(nodes: seq<Node>, now: Time)
    ensures forall n | n in Candidates(nodes, now) :: n in nodes && n.CanShutDown(now)
    decreases |nodes|
  {
    if nodes != [] {
      CandidatesOnly(nodes[..|nodes| - 1], now);
      assert nodes == nodes[..|nodes| - 1] + [nodes[|nodes| - 1]];
    }
  }

  lemma {:induction false} CandidatesUnique(nodes: seq<Node>, now: Time)
    requires UniqueIds(nodes)
    ensures UniqueIds(Candidates(nodes, now))
    decreases |nodes|
  {
    if nodes != [] {
      var init, last := nodes[..|nodes| - 1], nodes[|nodes| - 1];
      CandidatesUnique(init, now);
      CandidatesOnly(init, now);
      forall n | n in Candidates(init, now) ensures n.Id() != last.Id() {
        var j :| 0 <= j < |init| && init[j] == n;
      }
    }
  }

  /** A power-off that was issued: the running amounts it was issued on, and whether it got
      as far as the chain. */
  datatype Issued = Issued(id: NodeId, used: Capacity, total: Capacity, sent: bool)

  /** The loop's variables, with its history: the nodes taken out of the running amounts and
      the power-offs issued. */
  datatype Shrink = Shrink(
    nodes: seq<Node>,
    used: Capacity,
    total: Capacity,
    left: int,
    stopped: bool,
    removed: set<NodeId>,
    issued: seq<Issued>)

  /** The running amounts without one more node. */
  function TakeOut(s: Shrink, n: Node): Shrink {
    s.(used := s.used.Minus(n.used), total := s.total.Minus(n.total), left := s.left - 1,
        removed := s.removed + {n.Id()})
  }

  /** One candidate. A failed power-off is taken back, unless the candidate, as it was read,
      was already shutting down. */
  function Consider(s: Shrink, n: Node, now: Time, t: Thresholds, answer: OffAnswer): Shrink {
    if s.stopped || s.left == 1 then s.(stopped := true)
    else
      var out := TakeOut(s, n);
      if out.total.IsEmpty() then s.(stopped := true)
      else if !MeetDemand(out.total, out.used, Demands(out.total, out.used, t)) then out
      else
        var e := PowerOff(s.nodes, n.Id(), now, answer);
        (if e.ok || n.power == ShuttingDown then out else s)
          .(nodes := e.nodes, issued := s.issued + [Issued(n.Id(), out.used, out.total, e.sent)])
  }

  function ConsiderAll(s: Shrink, candidates: seq<Node>, now: Time, t: Thresholds, answers: NodeId -> OffAnswer): Shrink
    decreases |candidates|
  {
    if candidates == [] then s
    else
      var k := |candidates| - 1;
      Consider(ConsiderAll(s, candidates[..k], now, t, answers), candidates[k], now, t, answers(candidates[k].Id()))
  }

  function Online(nodes: seq<Node>): seq<Node> {
    InState(nodes, {On, WakingUp})
  }

  function StartShrink(nodes: seq<Node>): Shrink {
    Shrink(nodes, UsedSum(Online(nodes), {}), TotalSum(Online(nodes), {}), OnCount(nodes), false, {}, [])
  }

  /** What `resourceUsageTooLow` does, from the amounts of the nodes that are on or waking. */
  function TooLow(nodes: seq<Node>, now: Time, t: Thresholds, answers: NodeId -> OffAnswer): Shrink {
    if OnCount(nodes) <= 1 then StartShrink(nodes)
    else ConsiderAll(StartShrink(nodes), Candidates(nodes, now), now, t, answers)
  }

  // ----- The running amounts --------------------------------------------------------------

  lemma {:induction false} InStateHas(nodes: seq<Node>, states: set<PowerState>, i: nat)
    requires i < |nodes| && nodes[i].power in states
    ensures nodes[i] in InState(nodes, states)
    decreases |nodes|
  {
    if i < |nodes| - 1 { InStateHas(nodes[..|nodes| - 1], states, i); }
  }

  lemma {:induction false} InStateUnique(nodes: seq<Node>, states: set<PowerState>)
    requires UniqueIds(nodes)
    ensures UniqueIds(InState(nodes, states))
    decreases |nodes|
  {
    if nodes != [] {
      var init, last := nodes[..|nodes| - 1], nodes[|nodes| - 1];
      InStateUnique(init, states);
      InStateOnly(init, states);
      forall n | n in InState(init, states) ensures n.Id() != last.Id() {
        var j :| 0 <= j < |init| && init[j] == n;
      }
    }
  }

  function IdSet(nodes: seq<Node>): (r: set<NodeId>)
    ensures forall n | n in nodes :: n.Id() in r
    decreases |nodes|
  {
    if nodes == [] then {}
    else
      var init, last := nodes[..|nodes| - 1], nodes[|nodes| - 1];
      assert nodes == init + [last];
      IdSet(init) + {last.Id()}
  }

  lemma {:induction false} IdSetOf(nodes: seq<Node>, id: NodeId) returns (i: nat)
    requires id in IdSet(nodes)
    ensures i < |nodes| && nodes[i].Id() == id
    decreases |nodes|
  {
    i := |nodes| - 1;
    if nodes[i].Id() != id { i := IdSetOf(nodes[..i], id); }
  }

  lemma {:induction false} IdSetSize(nodes: seq<Node>)
    requires UniqueIds(nodes)
    ensures |IdSet(nodes)| == |nodes|
    decreases |nodes|
  {
    if nodes != [] {
      var init, last := nodes[..|nodes| - 1], nodes[|nodes| - 1];
      IdSetSize(init);
      if last.Id() in IdSet(init) { var i := IdSetOf(init, last.Id()); }
    }
  }

  /** The running amounts are the sums over the on and waking nodes not taken out, every node
      taken out is a candidate that was on, and the count of nodes left is exact. */
  ghost predicate Running(nodes: seq<Node>, s: Shrink, seen: seq<Node>) {
    && s.used == UsedSum(Online(nodes), s.removed)
    && s.total == TotalSum(Online(nodes), s.removed)
    && s.removed <= IdSet(seen)
    && s.left == OnCount(nodes) - |s.removed| && s.left >= 1
  }

  /** What taking one more node out of the running amounts amounts to: both subtractions are
      exact, and some node that is on stays counted. */
  ghost predicate Exact(nodes: seq<Node>, s: Shrink, n: Node) {
    && n.Id() !in s.removed && |s.removed + {n.Id()}| == |s.removed| + 1
    && n.used.AtMost(s.used) && n.total.AtMost(s.total)
    && s.used.Minus(n.used) == UsedSum(Online(nodes), s.removed + {n.Id()})
    && s.total.Minus(n.total) == TotalSum(Online(nodes), s.removed + {n.Id()})
    && SomeOn(nodes, s.removed + {n.Id()})
  }

  /** Some node that is on is not in `removed`. */
  ghost predicate SomeOn(nodes: seq<Node>, removed: set<NodeId>) {
    exists i | 0 <= i < |nodes| :: nodes[i].power == On && nodes[i].Id() !in removed
  }

  lemma NextIsExact(nodes: seq<Node>, now: Time, s: Shrink, k: nat)
    requires UniqueIds(nodes) && k < |Candidates(nodes, now)|
    requires Running(nodes, s, Candidates(nodes, now)[..k]) && s.left > 1
    ensures Exact(nodes, s, Candidates(nodes, now)[k])
  {
    var n := Candidates(nodes, now)[k];
    CandidateIsNew(nodes, now, k);
    var o := CandidateOnline(nodes, now, k);
    InStateUnique(nodes, {On, WakingUp});
    SumsRemove(Online(nodes), s.removed, o);
    MinusUndoesPlus(s.used, UsedSum(Online(nodes), s.removed + {n.Id()}), n.used);
    MinusUndoesPlus(s.total, TotalSum(Online(nodes), s.removed + {n.Id()}), n.total);
    SomeOnLeft(nodes, s.removed + {n.Id()});
  }

  lemma MinusUndoesPlus(sum: Capacity, rest: Capacity, c: Capacity)
    requires sum == rest.Plus(c)
    ensures sum.Minus(c) == rest && c.AtMost(sum)
  {
  }

  lemma CandidateIsNew(nodes: seq<Node>, now: Time, k: nat)
    requires UniqueIds(nodes) && k < |Candidates(nodes, now)|
    ensures Candidates(nodes, now)[k].Id() !in IdSet(Candidates(nodes, now)[..k])
  {
    var cs := Candidates(nodes, now);
    CandidatesUnique(nodes, now);
    if cs[k].Id() in IdSet(cs[..k]) { var j := IdSetOf(cs[..k], cs[k].Id()); }
  }

  lemma CandidateOnline(nodes: seq<Node>, now: Time, k: nat) returns (o: nat)
    requires k < |Candidates(nodes, now)|
    ensures o < |Online(nodes)| && Online(nodes)[o] == Candidates(nodes, now)[k]
    ensures !Candidates(nodes, now)[k].rented
  {
    var n := Candidates(nodes, now)[k];
    CandidatesOnly(nodes, now);
    assert n in Candidates(nodes, now);
    var i :| 0 <= i < |nodes| && nodes[i] == n;
    InStateHas(nodes, {On, WakingUp}, i);
    o :| 0 <= o < |Online(nodes)| && Online(nodes)[o] == n;
  }

  lemma SomeOnLeft(nodes: seq<Node>, removed: set<NodeId>)
    requires UniqueIds(nodes) && |removed| < OnCount(nodes)
    ensures SomeOn(nodes, removed)
  {
    var ons := InState(nodes, {On});
    InStateUnique(nodes, {On});
    InStateOnly(nodes, {On});
    IdSetSize(ons);
    if IdSet(ons) <= removed {
      SubsetSize(IdSet(ons), removed);
      assert false;
    }
    var id :| id in IdSet(ons) && id !in removed;
    var j := IdSetOf(ons, id);
    assert ons[j] in ons;
    var i :| 0 <= i < |nodes| && nodes[i] == ons[j];
  }

  lemma {:induction false} SubsetSize(a: set<NodeId>, b: set<NodeId>)
    requires a <= b
    ensures |a| <= |b|
    decreases a
  {
    if a != {} {
      var x :| x in a;
      SubsetSize(a - {x}, b - {x});
    }
  }

  /** The running amounts after a candidate are those before it, or those without it. */
  lemma ConsiderIs(s: Shrink, n: Node, now: Time, t: Thresholds, answer: OffAnswer)
    ensures var r := Consider(s, n, now, t, answer);
            || r == s.(nodes := r.nodes, stopped := r.stopped, issued := r.issued)
            || (s.left != 1 && r == TakeOut(s, n).(nodes := r.nodes, stopped := r.stopped, issued := r.issued))
  {
  }

  lemma ConsiderKeepsRunning(nodes: seq<Node>, s: Shrink, seen: seq<Node>, n: Node, now: Time, t: Thresholds,
        answer: OffAnswer)
    requires Running(nodes, s, seen) && (s.left > 1 ==> Exact(nodes, s, n))
    ensures Running(nodes, Consider(s, n, now, t, answer), seen + [n])
  {
    ConsiderIs(s, n, now, t, answer);
    assert (seen + [n])[..|seen|] == seen;
    assert IdSet(seen + [n]) == IdSet(seen) + {n.Id()};
    if s.left > 1 { assert Running(nodes, TakeOut(s, n), seen + [n]); }
  }

  /** All along the loop the running amounts are exact. */
  lemma {:induction false} ShrinkIsExact(nodes: seq<Node>, now: Time, t: Thresholds, answers: NodeId -> OffAnswer,
        k: nat)
    requires UniqueIds(nodes) && OnCount(nodes) > 1 && k <= |Candidates(nodes, now)|
    ensures var cs := Candidates(nodes, now)[..k];
            Running(nodes, ConsiderAll(StartShrink(nodes), cs, now, t, answers), cs)
    decreases k
  {
    var cs := Candidates(nodes, now);
    if k > 0 {
      assert cs[..k][..k - 1] == cs[..k - 1];
      ShrinkIsExact(nodes, now, t, answers, k - 1);
      var s := ConsiderAll(StartShrink(nodes), cs[..k - 1], now, t, answers);
      if s.left > 1 { NextIsExact(nodes, now, s, k - 1); }
      ConsiderKeepsRunning(nodes, s, cs[..k - 1], cs[k - 1], now, t, answers(cs[k - 1].Id()));
      assert cs[..k] == cs[..k - 1] + [cs[k - 1]];
    }
  }

  // ----- Counted and on -------------------------------------------------------------------

  predicate WasIssued(s: Shrink, id: NodeId) {
    exists e | e in s.issued :: e.id == id
  }

  /** What the loop's variables say of a node that read `before` at the start and reads `after`
      now: nothing yet if its turn has not come; if it went down, a power-off was issued for it,
      and it is still counted exactly when the chain rejected that and says it is down; if it
      stayed on, it is counted or was taken out without a power-off. */
  predicate Booked(before: Node, after: Node, s: Shrink, seen: bool, answer: OffAnswer) {
    var id := before.Id();
    && (!seen ==> after == before && id !in s.removed && !WasIssued(s, id))
    && (after != before ==>
          after.power == ShuttingDown && WasIssued(s, id) && (id !in s.removed <==> answer == Rejected(Some(true))))
    && (after == before && id in s.removed ==> !WasIssued(s, id))
  }

  ghost predicate AllBooked(nodes: seq<Node>, s: Shrink, seen: set<NodeId>, answers: NodeId -> OffAnswer) {
    && |s.nodes| == |nodes|
    && forall i | 0 <= i < |nodes| ::
         s.nodes[i].Id() == nodes[i].Id() &&
         Booked(nodes[i], s.nodes[i], s, nodes[i].Id() in seen, answers(nodes[i].Id()))
  }

  lemma IssuedNext(s: Shrink, r: Shrink, e: Issued, id: NodeId)
    requires r.issued == s.issued + [e]
    ensures WasIssued(r, id) <==> WasIssued(s, id) || e.id == id
  {
    if WasIssued(s, id) {
      var x :| x in s.issued && x.id == id;
      assert x in r.issued;
    }
    assert e in r.issued;
  }

  lemma ConsiderBooksOne(nodes: seq<Node>, s: Shrink, c: nat, now: Time, t: Thresholds, answer: OffAnswer)
    requires UniqueIds(nodes) && |s.nodes| == |nodes| && c < |nodes| && nodes[c].CanShutDown(now)
    requires forall i | 0 <= i < |nodes| :: s.nodes[i].Id() == nodes[i].Id()
    requires Booked(nodes[c], s.nodes[c], s, false, answer)
    ensures var r := Consider(s, nodes[c], now, t, answer);
            |r.nodes| == |nodes| && Booked(nodes[c], r.nodes[c], r, true, answer)
  {
    var n := nodes[c];
    var r := Consider(s, n, now, t, answer);
    var e := PowerOff(s.nodes, n.Id(), now, answer);
    assert IndexOf(s.nodes, n.Id()) == Some(c);
    assert e.ok ==> e.nodes[c] == GoingDown(n, now);
    if r.issued != s.issued { IssuedNext(s, r, r.issued[|s.issued|], n.Id()); }
  }

  lemma ConsiderBooksOther(before: Node, s: Shrink, i: nat, seen: bool, own: OffAnswer,
        n: Node, now: Time, t: Thresholds, answer: OffAnswer)
    requires i < |s.nodes| && before.Id() != n.Id() && s.nodes[i].Id() == before.Id()
    requires Booked(before, s.nodes[i], s, seen, own)
    ensures var r := Consider(s, n, now, t, answer);
            |r.nodes| == |s.nodes| && Booked(before, r.nodes[i], r, seen, own)
  {
    PowerOffKeepsTheRest(s.nodes, n.Id(), now, answer);
    var r := Consider(s, n, now, t, answer);
    if r.issued != s.issued { IssuedNext(s, r, r.issued[|s.issued|], before.Id()); }
  }

  lemma ConsiderBooks(nodes: seq<Node>, s: Shrink, seen: set<NodeId>, c: nat, now: Time, t: Thresholds,
        answers: NodeId -> OffAnswer)
    requires UniqueIds(nodes) && AllBooked(nodes, s, seen, answers)
    requires c < |nodes| && nodes[c].Id() !in seen && nodes[c].CanShutDown(now)
    ensures AllBooked(nodes, Consider(s, nodes[c], now, t, answers(nodes[c].Id())), seen + {nodes[c].Id()}, answers)
  {
    var n := nodes[c];
    var r := Consider(s, n, now, t, answers(n.Id()));
    ConsiderBooksOne(nodes, s, c, now, t, answers(n.Id()));
    forall i | 0 <= i < |nodes|
      ensures Booked(nodes[i], r.nodes[i], r, nodes[i].Id() in seen + {n.Id()}, answers(nodes[i].Id()))
    {
      var id := nodes[i].Id();
      if i != c { ConsiderBooksOther(nodes[i], s, i, id in seen, answers(id), n, now, t, answers(n.Id())); }
    }
  }

  lemma CandidateAt(nodes: seq<Node>, now: Time, k: nat) returns (c: nat)
    requires UniqueIds(nodes) && k < |Candidates(nodes, now)|
    ensures c < |nodes| && nodes[c] == Candidates(nodes, now)[k] && nodes[c].CanShutDown(now)
    ensures var cs := Candidates(nodes, now);
            nodes[c].Id() !in IdSet(cs[..k]) && IdSet(cs[..k + 1]) == IdSet(cs[..k]) + {nodes[c].Id()}
  {
    var cs := Candidates(nodes, now);
    CandidateIsNew(nodes, now, k);
    CandidatesOnly(nodes, now);
    assert cs[k] in cs;
    c :| 0 <= c < |nodes| && nodes[c] == cs[k];
    assert cs[..k + 1][..k] == cs[..k];
  }

  lemma ConsiderNext(s: Shrink, cs: seq<Node>, k: nat, now: Time, t: Thresholds, answers: NodeId -> OffAnswer)
    requires k < |cs|
    ensures ConsiderAll(s, cs[..k + 1], now, t, answers)
         == Consider(ConsiderAll(s, cs[..k], now, t, answers), cs[k], now, t, answers(cs[k].Id()))
  {
    assert cs[..k + 1][..k] == cs[..k];
  }

  lemma {:induction false} BooksAreKept(nodes: seq<Node>, now: Time, t: Thresholds, answers: NodeId -> OffAnswer,
      k: nat)
    requires UniqueIds(nodes) && k <= |Candidates(nodes, now)|
    ensures var cs := Candidates(nodes, now)[..k];
            AllBooked(nodes, ConsiderAll(StartShrink(nodes), cs, now, t, answers), IdSet(cs), answers)
    decreases k
  {
    if k > 0 {
      var cs := Candidates(nodes, now);
      BooksAreKept(nodes, now, t, answers, k - 1);
      var c := CandidateAt(nodes, now, k - 1);
      var s := ConsiderAll(StartShrink(nodes), cs[..k - 1], now, t, answers);
      ConsiderBooks(nodes, s, IdSet(cs[..k - 1]), c, now, t, answers);
      ConsiderNext(StartShrink(nodes), cs, k - 1, now, t, answers);
    }
  }

  /** A node that the loop put to sleep is still among the running amounts exactly when the
      chain rejected its power-off and yet says that it is down; a node that stayed on and is
      missing from them was passed over without a power-off. */
  lemma CountedIff(nodes: seq<Node>, now: Time, t: Thresholds, answers: NodeId -> OffAnswer, i: nat)
    requires UniqueIds(nodes) && i < |nodes|
    ensures var s, id := TooLow(nodes, now, t, answers), nodes[i].Id();
            && |s.nodes| == |nodes|
            && (s.nodes[i] != nodes[i] ==> s.nodes[i].power == ShuttingDown && WasIssued(s, id))
            && (s.nodes[i] != nodes[i] ==> (id !in s.removed <==> answers(id) == Rejected(Some(true))))
            && (s.nodes[i] == nodes[i] && id in s.removed ==> !WasIssued(s, id))
  {
    var cs := Candidates(nodes, now);
    if OnCount(nodes) > 1 {
      assert cs[..|cs|] == cs;
      BooksAreKept(nodes, now, t, answers, |cs|);
      var s := TooLow(nodes, now, t, answers);
      assert Booked(nodes[i], s.nodes[i], s, nodes[i].Id() in IdSet(cs), answers(nodes[i].Id()));
    }
  }

  // ----- What the loop guarantees ---------------------------------------------------------

  /** A power-off was issued on exact sums that leave some node that is on, and passed the
      remaining-capacity test. */
  ghost predicate WellIssued(nodes: seq<Node>, t: Thresholds, e: Issued) {
    && MeetDemand(e.total, e.used, Demands(e.total, e.used, t))
    && exists removed: set<NodeId> ::
         && e.used == UsedSum(Online(nodes), removed) && e.total == TotalSum(Online(nodes), removed)
         && SomeOn(nodes, removed)
  }

  lemma {:induction false} AllWellIssued(nodes: seq<Node>, now: Time, t: Thresholds, answers: NodeId -> OffAnswer,
        k: nat)
    requires UniqueIds(nodes) && OnCount(nodes) > 1 && k <= |Candidates(nodes, now)|
    ensures forall e | e in ConsiderAll(StartShrink(nodes), Candidates(nodes, now)[..k], now, t, answers).issued ::
              WellIssued(nodes, t, e)
    decreases k
  {
    var cs := Candidates(nodes, now);
    if k > 0 {
      assert cs[..k][..k - 1] == cs[..k - 1];
      AllWellIssued(nodes, now, t, answers, k - 1);
      ShrinkIsExact(nodes, now, t, answers, k - 1);
      var s := ConsiderAll(StartShrink(nodes), cs[..k - 1], now, t, answers);
      if s.left > 1 {
        NextIsExact(nodes, now, s, k - 1);
        IssuedIsWell(nodes, s, cs[k - 1], now, t, answers(cs[k - 1].Id()));
      }
    }
  }

  lemma IssuedIsWell(nodes: seq<Node>, s: Shrink, n: Node, now: Time, t: Thresholds, answer: OffAnswer)
    requires Exact(nodes, s, n) && forall e | e in s.issued :: WellIssued(nodes, t, e)
    ensures forall e | e in Consider(s, n, now, t, answer).issued :: WellIssued(nodes, t, e)
  {
  }

  /** The subtractions of the loop never clamp and its totals never reach zero: whatever the
      chain answers, each candidate it looks at fits into the running amounts, which are the
      sums over the on and waking nodes still counted, one that is on among them; with
      positive node totals the thresholds never divide by zero. */
  lemma TooLowNeverClamps(nodes: seq<Node>, now: Time, t: Thresholds, answers: NodeId -> OffAnswer, k: nat)
    requires UniqueIds(nodes) && OnCount(nodes) > 1 && k < |Candidates(nodes, now)|
    requires ConsiderAll(StartShrink(nodes), Candidates(nodes, now)[..k], now, t, answers).left > 1
    ensures var s := ConsiderAll(StartShrink(nodes), Candidates(nodes, now)[..k], now, t, answers);
            var out := TakeOut(s, Candidates(nodes, now)[k]);
            && Exact(nodes, s, Candidates(nodes, now)[k])
            && (AllPositive(nodes) ==> out.total.cru > 0 && out.total.sru > 0 && out.total.mru > 0)
  {
    var s := ConsiderAll(StartShrink(nodes), Candidates(nodes, now)[..k], now, t, answers);
    ShrinkIsExact(nodes, now, t, answers, k);
    NextIsExact(nodes, now, s, k);
    if AllPositive(nodes) {
      OnlinePositive(nodes, s.removed + {Candidates(nodes, now)[k].Id()});
    }
  }

  lemma OnlinePositive(nodes: seq<Node>, removed: set<NodeId>)
    requires AllPositive(nodes) && SomeOn(nodes, removed)
    ensures var total := TotalSum(Online(nodes), removed);
            total.cru > 0 && total.sru > 0 && total.mru > 0
  {
    var i :| 0 <= i < |nodes| && nodes[i].power == On && nodes[i].Id() !in removed;
    InStateHas(nodes, {On, WakingUp}, i);
    InStateOnly(nodes, {On, WakingUp});
    var o :| 0 <= o < |Online(nodes)| && Online(nodes)[o] == nodes[i];
    TotalsPositive(Online(nodes), removed, o);
  }

  /** Every power-off the loop issues leaves the counted nodes half-way safe in every
      resource exactly when their use is within their totals. */
  lemma TooLowIsHalfSafeIff(nodes: seq<Node>, now: Time, t: Thresholds, answers: NodeId -> OffAnswer, e: Issued)
    requires UniqueIds(nodes) && AllPositive(nodes) && Percentages(t)
    requires e in TooLow(nodes, now, t, answers).issued
    ensures AllHalfSafe(e.used, e.total, t) <==> e.used.AtMost(e.total)
  {
    var cs := Candidates(nodes, now);
    assert cs[..|cs|] == cs;
    AllWellIssued(nodes, now, t, answers, |cs|);
    var removed :| e.used == UsedSum(Online(nodes), removed) && e.total == TotalSum(Online(nodes), removed)
                   && SomeOn(nodes, removed);
    OnlinePositive(nodes, removed);
    AllMeetDemandIff(e.used, e.total, t);
  }

  /** No node's use is beyond its total, as without over-provisioned CPU. */
  predicate NoneOverused(nodes: seq<Node>) {
    forall n | n in nodes :: n.power in {On, WakingUp} ==> Usage(n).AtMost(n.total)
  }

  lemma {:induction false} SumsWithin(nodes: seq<Node>, removed: set<NodeId>)
    requires forall n | n in nodes :: Usage(n).AtMost(n.total)
    ensures UsedSum(nodes, removed).AtMost(TotalSum(nodes, removed))
    decreases |nodes|
  {
    if nodes != [] {
      var k := |nodes| - 1;
      assert nodes[k] in nodes;
      SumsWithin(nodes[..k], removed);
    }
  }

  /** In a farm where no node that is on or waking is used beyond its total, every power-off
      the loop issues leaves the counted nodes half-way safe in every resource. */
  lemma NoOveruseIsHalfSafe(nodes: seq<Node>, now: Time, t: Thresholds, answers: NodeId -> OffAnswer, e: Issued)
    requires UniqueIds(nodes) && AllPositive(nodes) && Percentages(t) && NoneOverused(nodes)
    requires e in TooLow(nodes, now, t, answers).issued
    ensures AllHalfSafe(e.used, e.total, t)
  {
    TooLowIsHalfSafeIff(nodes, now, t, answers, e);
    var cs := Candidates(nodes, now);
    assert cs[..|cs|] == cs;
    AllWellIssued(nodes, now, t, answers, |cs|);
    var removed :| e.used == UsedSum(Online(nodes), removed) && e.total == TotalSum(Online(nodes), removed)
                   && SomeOn(nodes, removed);
    InStateOnly(nodes, {On, WakingUp});
    SumsWithin(Online(nodes), removed);
  }

  /** How far a round may have gone: a node is left on, and whatever changed is a node that
      passed every guard going down. */
  ghost predicate ShutDownSafely(before: seq<Node>, after: seq<Node>, now: Time) {
    && |after| == |before| && OnCount(after) >= 1
    && forall j | 0 <= j < |before| && after[j] != before[j] ::
         before[j].power == On && MayPowerOff(before[j], now) && after[j] == GoingDown(before[j], now)
  }

  lemma {:induction false} ConsiderAllIsSafe(s: Shrink, candidates: seq<Node>, now: Time, t: Thresholds,
        answers: NodeId -> OffAnswer)
    requires UniqueIds(s.nodes) && OnCount(s.nodes) >= 1
    requires forall n | n in candidates :: n in s.nodes && n.power == On
    ensures ShutDownSafely(s.nodes, ConsiderAll(s, candidates, now, t, answers).nodes, now)
    decreases |candidates|
  {
    if candidates != [] {
      var k := |candidates| - 1;
      var r, n := ConsiderAll(s, candidates[..k], now, t, answers), candidates[k];
      ConsiderAllIsSafe(s, candidates[..k], now, t, answers);
      PowerOffIsSafe(r.nodes, n.Id(), now, answers(n.Id()));
      PowerOffStaysSafe(s.nodes, r.nodes, n, now, answers(n.Id()));
    }
  }

  lemma PowerOffStaysSafe(before: seq<Node>, mid: seq<Node>, n: Node, now: Time, answer: OffAnswer)
    requires UniqueIds(before) && ShutDownSafely(before, mid, now) && n in before && n.power == On
    ensures ShutDownSafely(before, PowerOff(mid, n.Id(), now, answer).nodes, now)
  {
    PowerOffIsSafe(mid, n.Id(), now, answer);
    var after := PowerOff(mid, n.Id(), now, answer).nodes;
    var i :| 0 <= i < |before| && before[i] == n;
    forall j | 0 <= j < |before| && after[j] != before[j]
      ensures before[j].power == On && MayPowerOff(before[j], now) && after[j] == GoingDown(before[j], now)
    {
      if after[j] != mid[j] {
        assert mid[j] == before[j];
        assert j == i;
      }
    }
  }

  /** The low-use branch leaves a node on if there was one, and puts to sleep only nodes that
      passed every guard, whatever the chain answers. */
  lemma TooLowIsSafe(nodes: seq<Node>, now: Time, t: Thresholds, answers: NodeId -> OffAnswer)
    requires UniqueIds(nodes) && OnCount(nodes) >= 1
    ensures ShutDownSafely(nodes, TooLow(nodes, now, t, answers).nodes, now)
  {
    CandidatesOnly(nodes, now);
    ConsiderAllIsSafe(StartShrink(nodes), Candidates(nodes, now), now, t, answers);
  }

  // ----- Too much use ---------------------------------------------------------------------

  /** What is left of a demand that a node covers in full, per resource. */
  function Cover(demand: Capacity, c: Capacity): Capacity {
    Capacity(if c.cru >= demand.cru then 0 else demand.cru, if c.sru >= demand.sru then 0 else demand.sru,
             if c.mru >= demand.mru then 0 else demand.mru, if c.hru >= demand.hru then 0 else demand.hru)
  }

  datatype Selection = Selection(chosen: seq<NodeId>, demand: Capacity)

  /** Nodes that are off are taken in order while something is still demanded; one is chosen
      when it covers all that is left of some resource. */
  function Select(nodes: seq<Node>, demand: Capacity): Selection
    decreases |nodes|
  {
    if nodes == [] then Selection([], demand)
    else if nodes[0].power != Off then Select(nodes[1..], demand)
    else
      var rest := Cover(demand, nodes[0].chain.resources);
      var mine := if rest != demand then [nodes[0].Id()] else [];
      if rest.IsEmpty() then Selection(mine, rest)
      else
        var s := Select(nodes[1..], rest);
        s.(chosen := mine + s.chosen)
  }

  predicate SomeOffHas(nodes: seq<Node>, amount: nat, resource: Capacity -> nat) {
    exists i | 0 <= i < |nodes| :: nodes[i].power == Off && resource(nodes[i].chain.resources) >= amount
  }

  /** The nodes that are off can meet a demand exactly when every demanded resource can be
      met by one of them alone. */
  predicate Meetable(nodes: seq<Node>, demand: Capacity) {
    && (demand.cru > 0 ==> SomeOffHas(nodes, demand.cru, (c: Capacity) => c.cru))
    && (demand.sru > 0 ==> SomeOffHas(nodes, demand.sru, (c: Capacity) => c.sru))
    && (demand.mru > 0 ==> SomeOffHas(nodes, demand.mru, (c: Capacity) => c.mru))
    && (demand.hru > 0 ==> SomeOffHas(nodes, demand.hru, (c: Capacity) => c.hru))
  }

  lemma SomeOffHasHead(nodes: seq<Node>, amount: nat, resource: Capacity -> nat)
    requires nodes != []
    ensures SomeOffHas(nodes, amount, resource) <==>
              || (nodes[0].power == Off && resource(nodes[0].chain.resources) >= amount)
              || SomeOffHas(nodes[1..], amount, resource)
  {
  }

  lemma {:induction false} SelectMeetsIff(nodes: seq<Node>, demand: Capacity)
    ensures Select(nodes, demand).demand.IsEmpty() <==> Meetable(nodes, demand)
    decreases |nodes|
  {
    if nodes != [] {
      var rest := Cover(demand, nodes[0].chain.resources);
      SomeOffHasHead(nodes, demand.cru, (c: Capacity) => c.cru);
      SomeOffHasHead(nodes, demand.sru, (c: Capacity) => c.sru);
      SomeOffHasHead(nodes, demand.mru, (c: Capacity) => c.mru);
      SomeOffHasHead(nodes, demand.hru, (c: Capacity) => c.hru);
      SelectMeetsIff(nodes[1..], if nodes[0].power == Off then rest else demand);
    }
  }

  function PowerOnAll(nodes: seq<Node>, ids: seq<NodeId>, now: Time, chain: NodeId -> bool): seq<Node>
    decreases |ids|
  {
    if ids == [] then nodes
    else
      var k := |ids| - 1;
      PowerOn(PowerOnAll(nodes, ids[..k], now, chain), ids[k], now, chain(ids[k])).nodes
  }

  lemma {:induction false} PowerOnAllKeepsOn(nodes: seq<Node>, ids: seq<NodeId>, now: Time, chain: NodeId -> bool)
    ensures OnCount(PowerOnAll(nodes, ids, now, chain)) == OnCount(nodes)
    ensures |PowerOnAll(nodes, ids, now, chain)| == |nodes|
    ensures forall j | 0 <= j < |nodes| && PowerOnAll(nodes, ids, now, chain)[j] != nodes[j] ::
              PowerOnAll(nodes, ids, now, chain)[j].power == WakingUp
    decreases |ids|
  {
    if ids != [] {
      var k := |ids| - 1;
      PowerOnAllKeepsOn(nodes, ids[..k], now, chain);
      PowerOnKeepsOn(PowerOnAll(nodes, ids[..k], now, chain), ids[k], now, chain(ids[k]));
    }
  }

  // ----- A round of management ------------------------------------------------------------

  /** What the chain answers in one round, node by node. */
  datatype Chain = Chain(turnsOn: NodeId -> bool, turnsOff: NodeId -> OffAnswer)

  datatype Managed = Managed(nodes: seq<Node>, ok: bool, issued: seq<Issued>)

  function OnlineDemand(nodes: seq<Node>, t: Thresholds): Capacity {
    Demands(TotalSum(Online(nodes), {}), UsedSum(Online(nodes), {}), t)
  }

  function Manage(nodes: seq<Node>, now: Time, t: Thresholds, chain: Chain): Managed {
    var demand := OnlineDemand(nodes, t);
    if !demand.IsEmpty() then
      var s := Select(nodes, demand);
      if s.demand.IsEmpty() then Managed(PowerOnAll(nodes, s.chosen, now, chain.turnsOn), true, [])
      else Managed(nodes, false, [])
    else
      var s := TooLow(nodes, now, t, chain.turnsOff);
      Managed(s.nodes, true, s.issued)
  }

  /** A round that starts with a node on ends with a node on, whatever the chain answers; the
      nodes it takes down passed every guard, and a round that finds the use too high takes
      none down. */
  lemma ManageKeepsOneOn(nodes: seq<Node>, now: Time, t: Thresholds, chain: Chain)
    requires UniqueIds(nodes) && OnCount(nodes) >= 1
    ensures var after := Manage(nodes, now, t, chain).nodes;
            && OnCount(after) >= 1 && |after| == |nodes|
            && forall j | 0 <= j < |nodes| && after[j].power == ShuttingDown && nodes[j].power != ShuttingDown ::
                 nodes[j].power == On && Idle(nodes[j], now) && OnlineDemand(nodes, t).IsEmpty()
  {
    var demand := OnlineDemand(nodes, t);
    if !demand.IsEmpty() {
      PowerOnAllKeepsOn(nodes, Select(nodes, demand).chosen, now, chain.turnsOn);
    } else {
      TooLowIsSafe(nodes, now, t, chain.turnsOff);
      forall n | n in nodes ensures MayPowerOff(n, now) <==> Idle(n, now) { MayPowerOffIff(n, now); }
    }
  }
}
