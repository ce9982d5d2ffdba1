/** Private addresses for the master and the workers of a Kubernetes cluster: an address that
    lies in the subnet of its node stays, any other is replaced by a free one. */
module K8sIps {
  import opened Wrappers
  import opened Addresses
  import HostIds

  type NodeId = nat

  /** `ip` is absent when the machine has none, or none that is an IPv4 address. */
  datatype Machine = Machine(node: NodeId, ip: Option<Addr>)

  /** The machines, the master first, and the subnets of the nodes. */
  datatype Cluster = Cluster(machines: seq<Machine>, ranges: map<NodeId, IPNet>)

  predicate Stays(c: Cluster, m: Machine) {
    m.ip.Some? && m.node in c.ranges && Contains(c.ranges[m.node], m.ip.value)
  }

  /** The host ids of the addresses on a node, whether or not they lie in its subnet. */
  function HostsOn(machines: seq<Machine>, node: NodeId): seq<Octet>
    decreases |machines|
  {
    if machines == [] then []
    else
      var k := |machines| - 1;
      var m := machines[k];
      HostsOn(machines[..k], node) + (if m.node == node && m.ip.Some? then [m.ip.value.d] else [])
  }

  lemma {:induction false} HostIsOn(machines: seq<Machine>, i: nat)
    requires i < |machines| && machines[i].ip.Some?
    ensures machines[i].ip.value.d in HostsOn(machines, machines[i].node)
    decreases |machines|
  {
    if i < |machines| - 1 { HostIsOn(machines[..|machines| - 1], i); }
  }

  function FreeHost(c: Cluster, node: NodeId): Option<Octet> {
    HostIds.FirstFree(HostsOn(c.machines, node), HostIds.FIRST)
  }

  /** The free host is written into the subnet itself, and the address read off it. */
  function Move(c: Cluster, i: nat, h: Octet): Cluster
    requires i < |c.machines| && c.machines[i].node in c.ranges
  {
    var m := c.machines[i];
    var range := c.ranges[m.node].(ip := c.ranges[m.node].ip.(d := h));
    Cluster(c.machines[i := m.(ip := Some(range.ip))], c.ranges[m.node := range])
  }

  function Assign(c: Cluster, i: nat): Option<Cluster>
    requires i < |c.machines|
  {
    var m := c.machines[i];
    if Stays(c, m) then Some(c)
    else if m.node !in c.ranges then None
    else
      match FreeHost(c, m.node)
      case None => None
      case Some(h) => Some(Move(c, i, h))
  }

  /** The cluster after the first `k` machines, or as far as it got when there was none free. */
  datatype Outcome = Outcome(cluster: Cluster, ok: bool)

  function AssignFirst(c: Cluster, k: nat): (r: Outcome)
    requires k <= |c.machines|
    ensures |r.cluster.machines| == |c.machines|
    decreases k
  {
    if k == 0 then Outcome(c, true)
    else
      var before := AssignFirst(c, k - 1);
      if !before.ok then before
      else
        match Assign(before.cluster, k - 1)
        case None => Outcome(before.cluster, false)
        case Some(after) => Outcome(after, true)
  }

  // ----- Distinct addresses ----------------------------------------------------------------

  /** The subnets of nodes are wider than one address. */
  predicate Wide(c: Cluster) { forall n | n in c.ranges :: c.ranges[n].mask != M32 }

  /** The subnets apart from the host in them. */
  ghost predicate SameSubnets(a: Cluster, b: Cluster) {
    && a.ranges.Keys == b.ranges.Keys
    && forall n | n in a.ranges :: b.ranges[n] == a.ranges[n].(ip := a.ranges[n].ip.(d := b.ranges[n].ip.d))
  }

  /** The first `k` machines and those that stay are settled. */
  ghost predicate Settled(c: Cluster, k: nat, i: nat)
    requires i < |c.machines|
  {
    i < k || Stays(c, c.machines[i])
  }

  /** Machines on the same node that were given addresses in its subnet were given different
      ones. */
  ghost predicate DistinctGiven(c: Cluster) {
    forall i, j | 0 <= i < j < |c.machines| :: !GivenTwice(c, i, j)
  }

  /** Two machines of one node were given the same address in its subnet. */
  predicate GivenTwice(c: Cluster, i: nat, j: nat)
    requires i < |c.machines| && j < |c.machines|
  {
    var a, b := c.machines[i], c.machines[j];
    a.node == b.node && Stays(c, a) && Stays(c, b) && a.ip == b.ip
  }

  /** What holds of machine `i` once it is settled: its address is in its subnet, and it is
      the given one or has a host id from 2 to 254. */
  ghost predicate Served(c: Cluster, after: Cluster, i: nat)
    requires i < |c.machines| == |after.machines|
  {
    var m, was := after.machines[i], c.machines[i];
    && m.node == was.node && Stays(after, m)
    && (if Stays(c, was) then m == was else HostIds.FIRST <= m.ip.value.d <= HostIds.LAST)
  }

  /** What the first `k` assignments bring about. */
  ghost predicate Progress(c: Cluster, after: Cluster, k: nat) {
    && |after.machines| == |c.machines| && SameSubnets(c, after)
    && (forall i | 0 <= i < |c.machines| ::
          if Settled(c, k, i) then Served(c, after, i) else after.machines[i] == c.machines[i])
    && forall i, j | 0 <= i < j < |c.machines| && Settled(c, k, i) && Settled(c, k, j) ::
         c.machines[i].node == c.machines[j].node && after.machines[i].ip == after.machines[j].ip ==>
           GivenTwice(c, i, j)
  }

  lemma StaysIsStable(c: Cluster, after: Cluster, m: Machine)
    requires Wide(c) && SameSubnets(c, after)
    ensures Stays(after, m) <==> Stays(c, m)
  {
  }

  lemma MoveProgress(c: Cluster, before: Cluster, k: nat, h: Octet)
    requires Wide(c) && k < |c.machines| && Progress(c, before, k)
    requires !Stays(c, c.machines[k]) && c.machines[k].node in c.ranges
    requires h !in HostsOn(before.machines, c.machines[k].node) && HostIds.FIRST <= h <= HostIds.LAST
    ensures before.machines[k] == c.machines[k] && Progress(c, Move(before, k, h), k + 1)
  {
    assert !Settled(c, k, k);
    var after := Move(before, k, h);
    assert SameSubnets(c, after) && SameSubnets(before, after);
    forall i | 0 <= i < |c.machines| && i != k
      ensures Settled(c, k + 1, i) <==> Settled(c, k, i)
      ensures after.machines[i] == before.machines[i]
      ensures Settled(c, k, i) ==> Served(c, after, i)
    {
      StaysIsStable(before, after, before.machines[i]);
    }
    assert Served(c, after, k) && Settled(c, k + 1, k);
    forall i | 0 <= i < |c.machines| && i != k && c.machines[i].node == c.machines[k].node && Settled(c, k, i)
      ensures after.machines[i].ip != after.machines[k].ip
    {
      assert Served(c, before, i);
      HostIsOn(before.machines, i);
    }
  }

  lemma StayProgress(c: Cluster, before: Cluster, k: nat)
    requires k < |c.machines| && Progress(c, before, k) && Stays(c, c.machines[k])
    ensures Stays(before, before.machines[k]) && Progress(c, before, k + 1)
  {
  }

  /** What one more successful assignment does. */
  ghost predicate Steps(before: Cluster, after: Cluster, i: nat)
    requires i < |before.machines|
  {
    var m := before.machines[i];
    if Stays(before, m) then after == before
    else
      && m.node in before.ranges && FreeHost(before, m.node).Some?
      && after == Move(before, i, FreeHost(before, m.node).value)
  }

  lemma AssignFirstSteps(c: Cluster, k: nat)
    requires 0 < k <= |c.machines| && AssignFirst(c, k).ok
    ensures AssignFirst(c, k - 1).ok && Steps(AssignFirst(c, k - 1).cluster, AssignFirst(c, k).cluster, k - 1)
  {
  }

  lemma ProgressStart(c: Cluster)
    ensures Progress(c, c, 0)
  {
  }

  lemma ProgressNext(c: Cluster, before: Cluster, after: Cluster, k: nat)
    requires Wide(c) && k < |c.machines| && Progress(c, before, k)
    requires Steps(before, after, k)
    ensures Progress(c, after, k + 1)
  {
    StaysIsStable(c, before, before.machines[k]);
    if Stays(c, c.machines[k]) {
      StayProgress(c, before, k);
    } else {
      assert !Settled(c, k, k);
      MoveProgress(c, before, k, FreeHost(before, c.machines[k].node).value);
    }
  }

  lemma ProgressStep(c: Cluster, before: Outcome, after: Outcome, k: nat)
    requires Wide(c) && 0 < k <= |c.machines| && Progress(c, before.cluster, k - 1)
    requires Steps(before.cluster, after.cluster, k - 1)
    ensures Progress(c, after.cluster, k)
  {
    ProgressNext(c, before.cluster, after.cluster, k - 1);
  }

  lemma {:induction false} AssignFirstProgress(c: Cluster, k: nat)
    requires Wide(c) && k <= |c.machines| && AssignFirst(c, k).ok
    ensures Progress(c, AssignFirst(c, k).cluster, k)
    decreases k
  {
    if k == 0 {
      ProgressStart(c);
    } else {
      AssignFirstSteps(c, k);
      AssignFirstProgress(c, k - 1);
      ProgressStep(c, AssignFirst(c, k - 1), AssignFirst(c, k), k);
    }
  }

  /** All addresses on each node differ. */
  ghost predicate AllDiffer(machines: seq<Machine>) {
    forall i, j | 0 <= i < j < |machines| && machines[i].node == machines[j].node :: machines[i].ip != machines[j].ip
  }

  lemma ProgressDiffers(c: Cluster, after: Cluster)
    requires Progress(c, after, |c.machines|)
    ensures forall i | 0 <= i < |c.machines| :: Served(c, after, i)
    ensures AllDiffer(after.machines) <==> DistinctGiven(c)
  {
    forall i | 0 <= i < |c.machines| ensures Served(c, after, i) { assert Settled(c, |c.machines|, i); }
    forall i, j | 0 <= i < j < |c.machines|
      ensures GivenTwice(c, i, j) <==>
                after.machines[i].node == after.machines[j].node && after.machines[i].ip == after.machines[j].ip
    {
      assert Served(c, after, i) && Served(c, after, j);
      assert Settled(c, |c.machines|, i) && Settled(c, |c.machines|, j);
    }
  }

  /** After a success every machine has an address in its subnet, those given there have kept
      theirs, the others have host ids from 2 to 254, and all addresses on a node differ exactly
      when those given there did. */
  lemma AllDifferIff(c: Cluster)
    requires Wide(c) && AssignFirst(c, |c.machines|).ok
    ensures var after := AssignFirst(c, |c.machines|).cluster;
            && (forall i | 0 <= i < |c.machines| :: Served(c, after, i))
            && (AllDiffer(after.machines) <==> DistinctGiven(c))
  {
    AssignFirstProgress(c, |c.machines|);
    ProgressDiffers(c, AssignFirst(c, |c.machines|).cluster);
  }

  /** An assignment fails exactly when the address does not lie in the subnet of its node, and
      the node has no subnet or all its 253 host ids are on it. */
  lemma AssignFailsIff(c: Cluster, i: nat)
    requires i < |c.machines|
    ensures Assign(c, i).None? <==>
              && !Stays(c, c.machines[i])
              && (c.machines[i].node in c.ranges ==> HostIds.Exhausted(HostsOn(c.machines, c.machines[i].node)))
  {
  }

  // ----- The cluster as it is changed --------------------------------------------------------

  type Used = map<NodeId, seq<Octet>>

  ghost predicate IsUsed(used: Used, machines: seq<Machine>) {
    forall n: NodeId :: (if n in used then used[n] else []) == HostsOn(machines, n)
  }

  function Add(used: Used, m: Machine): Used {
    if m.ip.None? then used
    else used[m.node := (if m.node in used then used[m.node] else []) + [m.ip.value.d]]
  }

  lemma HostsNext(machines: seq<Machine>, used: Used, m: Machine)
    requires IsUsed(used, machines)
    ensures IsUsed(Add(used, m), machines + [m])
  {
  }

  function AddAll(used: Used, machines: seq<Machine>): Used
    decreases |machines|
  {
    if machines == [] then used else Add(AddAll(used, machines[..|machines| - 1]), machines[|machines| - 1])
  }

  lemma {:induction false} AddAllIsUsed(used: Used, machines: seq<Machine>, more: seq<Machine>)
    requires IsUsed(used, machines)
    ensures IsUsed(AddAll(used, more), machines + more)
    decreases |more|
  {
    if more == [] {
      assert machines + more == machines;
    } else {
      var init, last := more[..|more| - 1], more[|more| - 1];
      AddAllIsUsed(used, machines, init);
      HostsNext(machines + init, AddAll(used, init), last);
      assert machines + more == (machines + init) + [last];
    }
  }

  class K8sCluster {
    var master: Machine
    var workers: seq<Machine>
    var ranges: map<NodeId, IPNet>

    constructor (master: Machine, workers: seq<Machine>, ranges: map<NodeId, IPNet>)
      ensures Value() == Cluster([master] + workers, ranges)
    {
      this.master, this.workers, this.ranges := master, workers, ranges;
    }

    function Value(): Cluster
      reads this
    {
      Cluster([master] + workers, ranges)
    }

    method GetUsedIPs() returns (used: Used)
      ensures IsUsed(used, Value().machines)
    {
      used := Add(map[], master);
      HostsNext([], map[], master);
      assert [] + [master] == [master];
      ghost var first := used;
      for k := 0 to |workers|
        invariant used == AddAll(first, workers[..k])
      {
        assert workers[..k + 1][..k] == workers[..k];
        used := Add(used, workers[k]);
      }
      assert workers[..|workers|] == workers;
      AddAllIsUsed(first, [master], workers);
    }

    method GetFreeIP(node: NodeId) returns (ip: Option<Addr>)
      modifies `ranges
      ensures match if node in old(ranges) then FreeHost(old(Value()), node) else None
              case None => ip == None && ranges == old(ranges)
              case Some(h) =>
                && ip == Some(old(ranges)[node].ip.(d := h))
                && ranges == old(ranges)[node := old(ranges)[node].(ip := ip.value)]
    {
      var used := GetUsedIPs();
      if node !in ranges { return None; }
      var h := LowestFree(if node in used then used[node] else []);
      if h.None? { return None; }
      ranges := ranges[node := ranges[node].(ip := ranges[node].ip.(d := h.value))];
      return Some(ranges[node].ip);
    }

    static method LowestFree(taken: seq<Octet>) returns (r: Option<Octet>)
      ensures r == HostIds.FirstFree(taken, HostIds.FIRST)
    {
      var h: int := HostIds.FIRST;
      while h <= HostIds.LAST
        invariant HostIds.FIRST <= h <= HostIds.LAST + 1
        invariant forall x: Octet | HostIds.FIRST <= x < h :: x in taken
      {
        if h !in taken {
          FirstIs(taken, HostIds.FIRST, h);
          return Some(h);
        }
        h := h + 1;
      }
      HostIds.FirstFreeFailsIff(taken);
      return None;
    }

    method AssignMaster() returns (ok: bool)
      modifies this
      ensures Outcome(Value(), ok) == AssignFirst(old(Value()), 1) && workers == old(workers)
    {
      ghost var start := Value();
      assert AssignFirst(start, 0) == Outcome(start, true);
      if Stays(Value(), master) { return true; }
      var ip := GetFreeIP(master.node);
      if ip.None? { return false; }
      master := master.(ip := ip);
      ok := true;
    }

    method AssignWorker(k: nat, ghost start: Cluster) returns (ok: bool)
      requires k < |workers| && k + 2 <= |start.machines| && Outcome(Value(), true) == AssignFirst(start, k + 1)
      modifies this
      ensures Outcome(Value(), ok) == AssignFirst(start, k + 2) && |workers| == |old(workers)|
    {
      var w := workers[k];
      ghost var before := Value();
      assert before.machines[k + 1] == w;
      if Stays(Value(), w) { return true; }
      var ip := GetFreeIP(w.node);
      if ip.None? { return false; }
      workers := workers[k := w.(ip := ip)];
      assert [master] + workers == before.machines[k + 1 := w.(ip := ip)];
      ok := true;
    }

    method AssignNodesIPs() returns (ok: bool)
      modifies this
      ensures Outcome(Value(), ok) == AssignFirst(old(Value()), 1 + |old(workers)|)
    {
      ghost var start := Value();
      ok := AssignMaster();
      if !ok {
        FailsForGood(start, 1, |start.machines|);
        return;
      }
      for k := 0 to |workers|
        invariant |workers| == |old(workers)|
        invariant Outcome(Value(), true) == AssignFirst(start, k + 1)
      {
        ok := AssignWorker(k, start);
        if !ok {
          FailsForGood(start, k + 2, |start.machines|);
          return;
        }
      }
      return true;
    }
  }

  lemma {:induction false} FirstIs(taken: seq<Octet>, from: Octet, h: Octet)
    requires from <= h <= HostIds.LAST && h !in taken
    requires forall x: Octet | from <= x < h :: x in taken
    ensures HostIds.FirstFree(taken, from) == Some(h)
    decreases h - from
  {
    if from < h { FirstIs(taken, from + 1, h); }
  }

  lemma {:induction false} FailsForGood(c: Cluster, k: nat, n: nat)
    requires k <= n <= |c.machines| && !AssignFirst(c, k).ok
    ensures AssignFirst(c, n) == AssignFirst(c, k)
    decreases n
  {
    if k < n { FailsForGood(c, k, n - 1); }
  }
}
