/** Deploying a batch: goroutines prepare the contracts, one call creates them, and one
    goroutine per contract sends its deployment. The goroutines are steps of a state machine
    that a scheduler picks in any order. */
module BatchDeploy {
  import opened Wrappers
  import opened Sequences
  import opened Versions

  type NodeId = nat
  type ContractId = nat

  // ----- The client cache -----------------------------------------------------------

  /** The pool keeps every client it ever made. */
  class NodeClientPool {
    var clients: map<NodeId, nat>

    constructor ()
      ensures clients == map[]
    {
      clients := map[];
    }

    /** A cached client costs no call; otherwise the chain is asked for the node's twin. */
    method GetNodeClient(node: NodeId, twinOnChain: Option<nat>) returns (client: Option<nat>)
      modifies this
      ensures client.Some? <==> node in old(clients) || twinOnChain.Some?
      ensures client.Some? ==> node in clients && clients[node] == client.value
      ensures forall n | n in old(clients) :: n in clients && clients[n] == old(clients)[n]
      ensures forall n | n in clients :: n in old(clients) || n == node
    {
      if node in clients {
        return Some(clients[node]);
      }
      if twinOnChain.Some? {
        clients := clients[node := twinOnChain.value];
      }
      client := twinOnChain;
    }
  }

  // ----- Preparing --------------------------------------------------------------------

  /** One deployment of the batch, and what is asked of the chain for it. */
  datatype Job = Job(node: NodeId, dl: Deployment, provider: Option<nat>)

  /** What the batch has for one node: its deployments, and the solution providers listed for
      them, which may be fewer. */
  datatype Share = Share(node: NodeId, dls: seq<Deployment>, providers: seq<Option<nat>>)

  function JobsOn(s: Share): (r: seq<Job>)
    ensures |r| == |s.dls| && forall i | 0 <= i < |r| :: r[i].node == s.node && r[i].dl == s.dls[i]
  {
    seq(|s.dls|, i requires 0 <= i < |s.dls| =>
      Job(s.node, s.dls[i], if i < |s.providers| then s.providers[i] else None))
  }

  function JobsOf(batch: seq<Share>): seq<Job>
    decreases |batch|
  {
    if batch == [] then [] else JobsOf(batch[..|batch| - 1]) + JobsOn(batch[|batch| - 1])
  }

  /** Every deployment of the batch is a job, with the provider listed at its place if there is
      one. */
  lemma {:induction false} JobsHaveAll(batch: seq<Share>, k: nat, i: nat) returns (j: nat)
    requires k < |batch| && i < |batch[k].dls|
    ensures j < |JobsOf(batch)|
    ensures JobsOf(batch)[j] == Job(batch[k].node, batch[k].dls[i],
              if i < |batch[k].providers| then batch[k].providers[i] else None)
    decreases |batch|
  {
    var last := |batch| - 1;
    if k == last {
      j := |JobsOf(batch[..last])| + i;
    } else {
      j := JobsHaveAll(batch[..last], k, i);
    }
  }

  function AllDeployments(batch: seq<Share>): nat
    decreases |batch|
  {
    if batch == [] then 0 else AllDeployments(batch[..|batch| - 1]) + |batch[|batch| - 1].dls|
  }

  lemma {:induction false} JobsCount(batch: seq<Share>)
    ensures |JobsOf(batch)| == AllDeployments(batch)
    decreases |batch|
  {
    if batch != [] { JobsCount(batch[..|batch| - 1]); }
  }

  lemma {:induction false} JobsHaveShares(batch: seq<Share>, nodes: set<NodeId>)
    requires forall i | 0 <= i < |batch| :: batch[i].node in nodes
    ensures forall j | 0 <= j < |JobsOf(batch)| :: JobsOf(batch)[j].node in nodes
    decreases |batch|
  {
    if batch != [] { JobsHaveShares(batch[..|batch| - 1], nodes); }
  }

  /** Before any contract exists the client of every node of the batch is looked up, also of
      one without deployments; one failure ends the batch. */
  method LoadClients(pool: NodeClientPool, batch: seq<Share>, twins: NodeId -> Option<nat>) returns (ok: bool)
    modifies pool
    ensures ok ==> forall j | 0 <= j < |batch| :: batch[j].node in pool.clients.Keys
    ensures forall n | n in old(pool.clients) :: n in pool.clients && pool.clients[n] == old(pool.clients)[n]
    ensures ok <==> forall j | 0 <= j < |batch| :: batch[j].node in old(pool.clients) || twins(batch[j].node).Some?
  {
    for i := 0 to |batch|
      invariant forall j | 0 <= j < i :: batch[j].node in pool.clients.Keys
      invariant forall j | 0 <= j < i :: batch[j].node in old(pool.clients) || twins(batch[j].node).Some?
      invariant forall n | n in pool.clients :: n in old(pool.clients) || twins(n).Some?
      invariant forall n | n in old(pool.clients) :: n in pool.clients && pool.clients[n] == old(pool.clients)[n]
    {
      var client := pool.GetNodeClient(batch[i].node, twins(batch[i].node));
      if client.None? { return false; }
    }
    ok := true;
  }

  datatype ContractData = ContractData(node: NodeId, body: string, hash: Deployment, provider: Option<nat>)

  function DataFor(j: Job): ContractData {
    ContractData(j.node, j.dl.metadata, j.dl, j.provider)
  }

  /** A goroutine finds the work cancelled, fails, or appends under the lock. */
  datatype Prepared = Skipped | Failed | Appended

  datatype Collection = Collection(
    done: set<nat>,
    data: seq<ContractData>,
    dls: seq<Deployment>,
    failed: bool)

  function Collect(jobs: seq<Job>, c: Collection, job: nat, how: Prepared): Collection
    requires job < |jobs|
  {
    var c' := c.(done := c.done + {job});
    match how
    case Skipped => c'
    case Failed => c'.(failed := true)
    case Appended => c'.(data := c.data + [DataFor(jobs[job])], dls := c.dls + [jobs[job].dl])
  }

  datatype Prep = Prep(job: nat, how: Prepared)

  /** A schedule runs each goroutine at most once. */
  predicate IsSchedule(jobs: seq<Job>, order: seq<Prep>) {
    && (forall i | 0 <= i < |order| :: order[i].job < |jobs|)
    && (forall i, j | 0 <= i < j < |order| :: order[i].job != order[j].job)
  }

  function CollectAll(jobs: seq<Job>, order: seq<Prep>): Collection
    requires forall i | 0 <= i < |order| :: order[i].job < |jobs|
    decreases |order|
  {
    if order == [] then Collection({}, [], [], false)
    else
      var k := |order| - 1;
      Collect(jobs, CollectAll(jobs, order[..k]), order[k].job, order[k].how)
  }

  /** The jobs that appended, in the order in which they did. */
  function Appenders(order: seq<Prep>): (r: seq<nat>)
    ensures forall x | x in r :: exists i | 0 <= i < |order| :: order[i].job == x
    decreases |order|
  {
    if order == [] then []
    else
      var k := |order| - 1;
      assert forall i | 0 <= i < k :: order[..k][i] == order[i];
      Appenders(order[..k]) + (if order[k].how == Appended then [order[k].job] else [])
  }

  /** In every order of the goroutines, the contract data and the deployment at one index
      belong to one and the same job, and no job is there twice. */
  lemma {:induction false} CollectedBelongTogether(jobs: seq<Job>, order: seq<Prep>)
    requires IsSchedule(jobs, order)
    ensures var c, a := CollectAll(jobs, order), Appenders(order);
            && |c.data| == |c.dls| == |a|
            && (forall i | 0 <= i < |a| ::
                  a[i] < |jobs| && c.data[i] == DataFor(jobs[a[i]]) && c.dls[i] == jobs[a[i]].dl)
            && (forall i, j | 0 <= i < j < |a| :: a[i] != a[j])
    decreases |order|
  {
    if order != [] {
      var k := |order| - 1;
      assert IsSchedule(jobs, order[..k]);
      CollectedBelongTogether(jobs, order[..k]);
      assert order[k].job !in Appenders(order[..k]);
    }
  }

  // ----- Sending ----------------------------------------------------------------------

  /** Where the goroutine of one contract is. */
  datatype Pc = Waiting | Started | HasClient | Sent | Finished

  /** `nodes` and `dls` are what was collected, `ids` the contract id field of each collected
      deployment, `failed` the list that will be cancelled. The first `created` entries have a
      contract. */
  datatype Sending = Sending(
    nodes: seq<NodeId>,
    dls: seq<Deployment>,
    contracts: seq<ContractId>,
    created: nat,
    pool: set<NodeId>,
    pcs: seq<Pc>,
    ids: seq<ContractId>,
    failed: seq<ContractId>)

  predicate Shaped(s: Sending) {
    && |s.nodes| == |s.dls| == |s.pcs| == |s.ids|
    && s.created <= |s.nodes| && s.created <= |s.contracts|
    && (forall i, j | 0 <= i < j < s.created :: s.contracts[i] != s.contracts[j])
    && (forall i | 0 <= i < s.created :: s.contracts[i] != 0)
  }

  /** Before any goroutine runs. */
  predicate Start(s: Sending) {
    && Shaped(s)
    && (forall i | 0 <= i < |s.nodes| :: s.pcs[i] == Waiting && s.ids[i] == 0 && s.nodes[i] in s.pool)
    && s.failed == []
  }

  datatype Event =
    | Spawn(i: nat)
    | ClientOk(i: nat) | ClientFails(i: nat)
    | DeployOk(i: nat) | DeployFails(i: nat)
    | WaitOk(i: nat) | WaitFails(i: nat)

  /** A cached client cannot fail to be found. */
  predicate Enabled(s: Sending, e: Event)
    requires Shaped(s)
  {
    && e.i < s.created
    && match e
       case Spawn(i) => s.pcs[i] == Waiting
       case ClientOk(i) => s.pcs[i] == Started
       case ClientFails(i) => s.pcs[i] == Started && s.nodes[i] !in s.pool
       case DeployOk(i) => s.pcs[i] == HasClient
       case DeployFails(i) => s.pcs[i] == HasClient
       case WaitOk(i) => s.pcs[i] == Sent
       case WaitFails(i) => s.pcs[i] == Sent
  }

  /** A goroutine that gets no client reports the id field it has not set yet. */
  function Next(s: Sending, e: Event): (s': Sending)
    requires Shaped(s) && Enabled(s, e)
    ensures Shaped(s')
  {
    match e
    case Spawn(i) => s.(pcs := s.pcs[i := Started])
    case ClientOk(i) => s.(pcs := s.pcs[i := HasClient], pool := s.pool + {s.nodes[i]})
    case ClientFails(i) => s.(pcs := s.pcs[i := Finished], failed := s.failed + [s.ids[i]])
    case DeployOk(i) => s.(pcs := s.pcs[i := Sent])
    case DeployFails(i) => s.(pcs := s.pcs[i := Finished], failed := s.failed + [s.contracts[i]])
    case WaitOk(i) => s.(pcs := s.pcs[i := Finished], ids := s.ids[i := s.contracts[i]])
    case WaitFails(i) => s.(pcs := s.pcs[i := Finished], failed := s.failed + [s.contracts[i]])
  }

  predicate IsRun(s: Sending, es: seq<Event>)
    requires Shaped(s)
    decreases |es|
  {
    es != [] ==> Enabled(s, es[0]) && IsRun(Next(s, es[0]), es[1..])
  }

  function After(s: Sending, es: seq<Event>): (s': Sending)
    requires Shaped(s) && IsRun(s, es)
    ensures Shaped(s')
    decreases |es|
  {
    if es == [] then s else After(Next(s, es[0]), es[1..])
  }

  /** Every goroutine has finished. */
  predicate Over(s: Sending)
    requires Shaped(s)
  {
    forall i | 0 <= i < s.created :: s.pcs[i] == Finished
  }

  /** The contract of entry `i` is reported on exactly one side once its goroutine is done,
      and on neither before. */
  predicate Accounted(s: Sending, i: nat)
    requires Shaped(s) && i < |s.nodes|
  {
    if i < s.created && s.pcs[i] == Finished
    then (s.ids[i] == s.contracts[i] && s.contracts[i] !in s.failed) || (s.ids[i] == 0 && s.contracts[i] in s.failed)
    else s.ids[i] == 0 && (i < s.created ==> s.contracts[i] !in s.failed)
  }

  ghost predicate Inv(s: Sending) {
    && Shaped(s)
    && (forall i | 0 <= i < |s.nodes| :: s.nodes[i] in s.pool)
    && (forall i | 0 <= i < |s.nodes| :: Accounted(s, i))
    && NoRepeats(s.failed)
    && (forall c | c in s.failed :: exists i | 0 <= i < s.created :: s.contracts[i] == c)
  }

  lemma StepKeepsInv(s: Sending, e: Event)
    requires Inv(s) && Enabled(s, e)
    ensures Inv(Next(s, e)) && !e.ClientFails?
  {
    var s' := Next(s, e);
    forall i | 0 <= i < |s'.nodes| ensures Accounted(s', i) {
      assert Accounted(s, i);
    }
    assert Accounted(s, e.i);
  }

  lemma {:induction false} RunKeepsInv(s: Sending, es: seq<Event>)
    requires Inv(s) && IsRun(s, es)
    ensures Inv(After(s, es))
    ensures forall e | e in es :: !e.ClientFails?
    decreases |es|
  {
    if es != [] {
      StepKeepsInv(s, es[0]);
      RunKeepsInv(Next(s, es[0]), es[1..]);
    }
  }

  /** A deployment gets its contract id exactly when the wait for it ends well. */
  lemma {:induction false} HasIdIffUp(s: Sending, es: seq<Event>, i: nat)
    requires Inv(s) && IsRun(s, es) && i < s.created
    ensures i < |After(s, es).ids| && (After(s, es).ids[i] != 0 <==> s.ids[i] != 0 || WaitOk(i) in es)
    decreases |es|
  {
    if es != [] {
      var s' := Next(s, es[0]);
      StepKeepsInv(s, es[0]);
      HasIdIffUp(s', es[1..], i);
      assert es == [es[0]] + es[1..];
      assert s'.ids[i] != 0 <==> s.ids[i] != 0 || es[0] == WaitOk(i);
    }
  }

  // ----- The result -------------------------------------------------------------------

  /** A returned deployment with its contract id, 0 if it has none. */
  datatype Kept = Kept(dl: Deployment, id: ContractId)

  /** The deployments as returned: under each node, those collected for it, in order. */
  function Returned(nodes: seq<NodeId>, kept: seq<Kept>): (r: map<NodeId, seq<Kept>>)
    requires |nodes| == |kept|
    decreases |nodes|
  {
    if nodes == [] then map[]
    else
      var k := |nodes| - 1;
      var before := Returned(nodes[..k], kept[..k]);
      before[nodes[k] := (if nodes[k] in before then before[nodes[k]] else []) + [kept[k]]]
  }

  method GroupByNode(nodes: seq<NodeId>, kept: seq<Kept>) returns (r: map<NodeId, seq<Kept>>)
    requires |nodes| == |kept|
    ensures r == Returned(nodes, kept)
  {
    r := map[];
    for i := 0 to |nodes|
      invariant r == Returned(nodes[..i], kept[..i])
    {
      assert nodes[..i + 1][..i] == nodes[..i] && kept[..i + 1][..i] == kept[..i];
      r := r[nodes[i] := (if nodes[i] in r then r[nodes[i]] else []) + [kept[i]]];
    }
    assert nodes[..|nodes|] == nodes && kept[..|kept|] == kept;
  }

  /** Of the deployments under `n`, the one that `k` is. */
  predicate OnlyUnder(r: map<NodeId, seq<Kept>>, n: NodeId, k: Kept) {
    n in r && exists i | 0 <= i < |r[n]| :: r[n][i] == k && forall j | 0 <= j < |r[n]| && r[n][j].id == k.id :: j == i
  }

  /** The contract id is returned once: on this deployment, under this node. */
  ghost predicate ReturnedOnce(r: map<NodeId, seq<Kept>>, n: NodeId, k: Kept) {
    OnlyUnder(r, n, k) && forall m | m in r && m != n :: NoneHas(r[m], k.id)
  }

  predicate NoneHas(kept: seq<Kept>, c: ContractId) {
    forall j | 0 <= j < |kept| :: kept[j].id != c
  }

  ghost predicate NotReturned(r: map<NodeId, seq<Kept>>, c: ContractId) {
    forall m | m in r :: NoneHas(r[m], c)
  }

  lemma {:induction false} GroupedOnce(nodes: seq<NodeId>, kept: seq<Kept>, i: nat)
    requires |nodes| == |kept| && i < |kept| && forall j | 0 <= j < |kept| && kept[j].id == kept[i].id :: j == i
    ensures ReturnedOnce(Returned(nodes, kept), nodes[i], kept[i])
    decreases |nodes|
  {
    var k := |nodes| - 1;
    var before, after := Returned(nodes[..k], kept[..k]), Returned(nodes, kept);
    if i == k {
      GroupedNever(nodes[..k], kept[..k], kept[i].id);
      assert after[nodes[k]][|after[nodes[k]]| - 1] == kept[k];
    } else {
      GroupedOnce(nodes[..k], kept[..k], i);
      var at :| 0 <= at < |before[nodes[i]]| && before[nodes[i]][at] == kept[i]
                && forall j | 0 <= j < |before[nodes[i]]| && before[nodes[i]][j].id == kept[i].id :: j == at;
      assert after[nodes[i]][at] == kept[i];
    }
  }

  lemma {:induction false} GroupedNever(nodes: seq<NodeId>, kept: seq<Kept>, c: ContractId)
    requires |nodes| == |kept| && NoneHas(kept, c)
    ensures NotReturned(Returned(nodes, kept), c)
    decreases |nodes|
  {
    if nodes != [] {
      GroupedNever(nodes[..|nodes| - 1], kept[..|kept| - 1], c);
    }
  }

  function At(r: map<NodeId, seq<Kept>>, n: NodeId): seq<Kept> {
    if n in r then r[n] else []
  }

  function Zip(nodes: seq<NodeId>, kept: seq<Kept>): (r: seq<(NodeId, Kept)>)
    requires |nodes| == |kept|
    ensures |r| == |nodes| && forall i | 0 <= i < |r| :: r[i] == (nodes[i], kept[i])
  {
    seq(|nodes|, i requires 0 <= i < |nodes| && |nodes| == |kept| => (nodes[i], kept[i]))
  }

  /** Under each node every deployment is as often as it was collected for that node. */
  lemma {:induction false} GroupedAll(nodes: seq<NodeId>, kept: seq<Kept>, n: NodeId, k: Kept)
    requires |nodes| == |kept|
    ensures Occurs(At(Returned(nodes, kept), n), k) == Occurs(Zip(nodes, kept), (n, k))
    ensures n in Returned(nodes, kept) <==> n in nodes
    decreases |nodes|
  {
    if nodes != [] {
      var last := |nodes| - 1;
      GroupedAll(nodes[..last], kept[..last], n, k);
      assert nodes == nodes[..last] + [nodes[last]];
      assert Zip(nodes, kept)[..last] == Zip(nodes[..last], kept[..last]);
      OccursNext(At(Returned(nodes[..last], kept[..last]), n), kept[last], k);
    }
  }

  /** The collected deployments with the contract ids they have by now. */
  function KeptOf(s: Sending): (r: seq<Kept>)
    requires Shaped(s)
    ensures |r| == |s.nodes| && forall i | 0 <= i < |r| :: r[i] == Kept(s.dls[i], s.ids[i])
  {
    seq(|s.dls|, i requires 0 <= i < |s.dls| && |s.dls| == |s.ids| => Kept(s.dls[i], s.ids[i]))
  }

  lemma KeptIffUp(s: Sending, es: seq<Event>, i: nat)
    requires Start(s) && IsRun(s, es) && Over(After(s, es)) && i < s.created
    ensures s.contracts[i] !in After(s, es).failed <==> WaitOk(i) in es
  {
    HasIdIffUp(s, es, i);
    RunKeepsInv(s, es);
    RunKeepsPlan(s, es);
    assert Accounted(After(s, es), i);
  }

  /** Under every interleaving, each contract that was created ends up as the contract id of
      exactly one returned deployment, the one it was made for and under its node, or in the
      list passed to the batch cancel, once; never both. It is returned exactly when the wait
      for it ended well, and nothing else is passed to the cancel. */
  lemma EveryContractOnOneSide(s: Sending, es: seq<Event>, i: nat)
    requires Start(s) && IsRun(s, es) && Over(After(s, es)) && i < s.created
    ensures var t := After(s, es);
            var r := Returned(t.nodes, KeptOf(t));
            && (ReturnedOnce(r, s.nodes[i], Kept(s.dls[i], s.contracts[i])) <==> s.contracts[i] !in t.failed)
            && (NotReturned(r, s.contracts[i]) <==> s.contracts[i] in t.failed)
            && (s.contracts[i] !in t.failed <==> WaitOk(i) in es)
            && NoRepeats(t.failed)
            && (forall c | c in t.failed :: c in s.contracts[..s.created])
  {
    var t := After(s, es);
    RunKeepsInv(s, es);
    RunKeepsPlan(s, es);
    OneSide(t, i);
    KeptIffUp(s, es, i);
    assert forall c | c in t.failed :: c in s.contracts[..s.created];
  }

  lemma OneSide(t: Sending, i: nat)
    requires Inv(t) && Over(t) && i < t.created
    ensures var r := Returned(t.nodes, KeptOf(t));
            && (ReturnedOnce(r, t.nodes[i], Kept(t.dls[i], t.contracts[i])) <==> t.contracts[i] !in t.failed)
            && (NotReturned(r, t.contracts[i]) <==> t.contracts[i] in t.failed)
  {
    assert Accounted(t, i);
    var c, kept := t.contracts[i], KeptOf(t);
    if t.ids[i] == c {
      forall j | 0 <= j < |kept| && kept[j].id == c ensures j == i { assert Accounted(t, j); }
      GroupedOnce(t.nodes, kept, i);
      OnceIsReturned(Returned(t.nodes, kept), t.nodes[i], kept[i]);
    } else {
      forall j | 0 <= j < |kept| ensures kept[j].id != c { assert Accounted(t, j); }
      GroupedNever(t.nodes, kept, c);
    }
  }

  lemma OnceIsReturned(r: map<NodeId, seq<Kept>>, n: NodeId, k: Kept)
    requires ReturnedOnce(r, n, k)
    ensures !NotReturned(r, k.id)
  {
  }

  lemma {:induction false} RunKeepsPlan(s: Sending, es: seq<Event>)
    requires Shaped(s) && IsRun(s, es)
    ensures var t := After(s, es);
            t.nodes == s.nodes && t.dls == s.dls && t.contracts == s.contracts && t.created == s.created
    decreases |es|
  {
    if es != [] { RunKeepsPlan(Next(s, es[0]), es[1..]); }
  }

  // ----- The whole batch ----------------------------------------------------------------

  function NodesOf(data: seq<ContractData>): (r: seq<NodeId>)
    ensures |r| == |data| && forall i | 0 <= i < |r| :: r[i] == data[i].node
  {
    seq(|data|, i requires 0 <= i < |data| => data[i].node)
  }

  /** Sending as it begins, after the chain made contracts for the first of what was
      collected. */
  function Begin(c: Collection, contracts: seq<ContractId>, pool: set<NodeId>): Sending {
    Sending(NodesOf(c.data), c.dls, contracts, |contracts|, pool, seq(|c.data|, _ => Waiting), seq(|c.data|, _ => 0),
        [])
  }

  /** The chain makes contracts with new ids, not all of them if something fails. */
  predicate FreshContracts(contracts: seq<ContractId>) {
    NoRepeats(contracts) && 0 !in contracts
  }

  lemma BeginIsStart(jobs: seq<Job>, order: seq<Prep>, contracts: seq<ContractId>, pool: set<NodeId>)
    requires IsSchedule(jobs, order) && FreshContracts(contracts) && |contracts| <= |Appenders(order)|
    requires forall j | 0 <= j < |jobs| :: jobs[j].node in pool
    ensures var s, a := Begin(CollectAll(jobs, order), contracts, pool), Appenders(order);
            && Start(s) && |s.nodes| == |a| && NoRepeats(a)
            && forall i | 0 <= i < |a| :: a[i] < |jobs| && s.nodes[i] == jobs[a[i]].node && s.dls[i] == jobs[a[i]].dl
  {
    CollectedBelongTogether(jobs, order);
  }

  /** What a batch gave to the chain, the deployments collected with it and the contract ids
      they end with, the contracts that were made of the first of them, and what the batch
      returns and cancels. */
  datatype Report = Report(
    data: seq<ContractData>,
    kept: seq<Kept>,
    contracts: seq<ContractId>,
    returned: map<NodeId, seq<Kept>>,
    canceled: seq<ContractId>)

  /** The contract is the id of the one returned deployment whose data it was made from, under
      that job's node, or it is cancelled. */
  ghost predicate Reported(b: Report, c: ContractId, j: Job) {
    && (c !in b.canceled <==> ReturnedOnce(b.returned, j.node, Kept(j.dl, c)))
    && (c in b.canceled <==> NotReturned(b.returned, c))
  }

  /** Under each node every deployment is returned as often as it was collected for that node. */
  ghost predicate ReturnsAll(b: Report) {
    && |b.data| == |b.kept|
    && (forall n :: n in b.returned <==> n in NodesOf(b.data))
    && (forall n, k :: Occurs(At(b.returned, n), k) == Occurs(Zip(NodesOf(b.data), b.kept), (n, k)))
  }

  /** Entry `i` of the data, and with it contract `i`, is of job `slots[i]`, each job being there
      once. */
  ghost predicate AllReported(jobs: seq<Job>, slots: seq<nat>, b: Report) {
    && NoRepeats(slots) && NoRepeats(b.contracts) && |b.contracts| <= |slots|
    && NoRepeats(b.canceled) && (forall c | c in b.canceled :: c in b.contracts)
    && |b.data| == |b.kept| == |slots| && ReturnsAll(b)
    && (forall i | 0 <= i < |slots| ::
          slots[i] < |jobs| && b.kept[i].dl == jobs[slots[i]].dl
          && var j := jobs[slots[i]]; b.data[i] == ContractData(j.node, j.dl.metadata, j.dl, j.provider))
    && forall i | 0 <= i < |b.contracts| :: Reported(b, b.contracts[i], jobs[slots[i]])
  }

  function ReportOf(t: Sending, contracts: seq<ContractId>, data: seq<ContractData>): Report
    requires Shaped(t)
  {
    Report(data, KeptOf(t), contracts, Returned(t.nodes, KeptOf(t)), t.failed)
  }

  lemma ReportReturnsAll(t: Sending, contracts: seq<ContractId>, data: seq<ContractData>)
    requires Shaped(t) && t.nodes == NodesOf(data)
    ensures ReturnsAll(ReportOf(t, contracts, data))
  {
    var b := ReportOf(t, contracts, data);
    forall n, k
      ensures n in b.returned <==> n in NodesOf(b.data)
      ensures Occurs(At(b.returned, n), k) == Occurs(Zip(NodesOf(b.data), b.kept), (n, k))
    {
      GroupedAll(t.nodes, KeptOf(t), n, k);
    }
    forall n ensures n in b.returned <==> n in NodesOf(b.data) {
      GroupedAll(t.nodes, KeptOf(t), n, Kept(Deployment(0, "", []), 0));
    }
  }

  /** From a batch whose clients are cached, any schedule of its goroutines, any contracts the
      chain makes and any run of the senders: every contract is accounted for with the job it
      was made for. */
  lemma BatchLosesNothing(jobs: seq<Job>, order: seq<Prep>, contracts: seq<ContractId>, pool: set<NodeId>,
        es: seq<Event>)
    requires IsSchedule(jobs, order) && FreshContracts(contracts) && |contracts| <= |Appenders(order)|
    requires forall j | 0 <= j < |jobs| :: jobs[j].node in pool
    requires var s := Begin(CollectAll(jobs, order), contracts, pool);
             Shaped(s) && IsRun(s, es) && Over(After(s, es))
    ensures var c := CollectAll(jobs, order);
            AllReported(jobs, Appenders(order), ReportOf(After(Begin(c, contracts, pool), es), contracts, c.data))
  {
    var s, a := Begin(CollectAll(jobs, order), contracts, pool), Appenders(order);
    BeginIsStart(jobs, order, contracts, pool);
    RunKeepsInv(s, es);
    RunKeepsPlan(s, es);
    var t, data := After(s, es), CollectAll(jobs, order).data;
    CollectedBelongTogether(jobs, order);
    forall i | 0 <= i < |contracts| ensures Reported(ReportOf(t, contracts, data), contracts[i], jobs[a[i]]) {
      OneSide(t, i);
    }
    ReportReturnsAll(t, contracts, data);
  }

  lemma ScheduleNext(jobs: seq<Job>, order: seq<Prep>, p: Prep)
    requires IsSchedule(jobs, order) && p.job < |jobs| && forall i | 0 <= i < |order| :: order[i].job != p.job
    ensures IsSchedule(jobs, order + [p])
    ensures CollectAll(jobs, order + [p]) == Collect(jobs, CollectAll(jobs, order), p.job, p.how)
  {
    assert (order + [p])[..|order|] == order;
  }

  function Places(n: nat): (r: set<nat>)
    ensures forall j: nat :: j in r <==> j < n
  {
    if n == 0 then {} else Places(n - 1) + {n - 1}
  }

  /** The jobs that failed are known, and so are those that appended. */
  ghost predicate Follows(order: seq<Prep>, how: nat -> Prepared, c: Collection) {
    && (forall i | 0 <= i < |order| :: order[i].how == how(order[i].job))
    && (forall j: nat :: j in Appenders(order) <==> j in c.done && how(j) == Appended)
    && (c.failed <==> exists j: nat :: j in c.done && how(j) == Failed)
  }

  lemma FollowsNext(jobs: seq<Job>, order: seq<Prep>, how: nat -> Prepared, c: Collection, job: nat)
    requires IsSchedule(jobs, order) && c == CollectAll(jobs, order) && Follows(order, how, c) && job < |jobs|
    requires job !in c.done
    ensures Follows(order + [Prep(job, how(job))], how, Collect(jobs, c, job, how(job)))
  {
    var next := order + [Prep(job, how(job))];
    assert next[..|order|] == order;
    var c' := Collect(jobs, c, job, how(job));
    if how(job) == Failed { assert job in c'.done; }
    if c.failed {
      var j: nat :| j in c.done && how(j) == Failed;
      assert j in c'.done;
    }
  }

  /** One more job is done. */
  lemma PrepareNext(jobs: seq<Job>, order: seq<Prep>, how: nat -> Prepared, c: Collection, job: nat)
    requires IsSchedule(jobs, order) && c == CollectAll(jobs, order) && Follows(order, how, c)
    requires job < |jobs| && job !in c.done && forall i | 0 <= i < |order| :: order[i].job in c.done
    ensures var next, c' := order + [Prep(job, how(job))], Collect(jobs, c, job, how(job));
            && IsSchedule(jobs, next) && c' == CollectAll(jobs, next) && Follows(next, how, c')
            && c'.done == c.done + {job} && forall i | 0 <= i < |next| :: next[i].job in c'.done
  {
    FollowsNext(jobs, order, how, c, job);
    ScheduleNext(jobs, order, Prep(job, how(job)));
  }

  /** The goroutines that prepare, in any order; `how` says how each of them ends. */
  method Prepare(jobs: seq<Job>, how: nat -> Prepared) returns (c: Collection, ghost order: seq<Prep>)
    ensures IsSchedule(jobs, order) && c == CollectAll(jobs, order) && c.done == Places(|jobs|)
    ensures c.failed <==> exists j: nat :: j < |jobs| && how(j) == Failed
    ensures forall j: nat :: j in Appenders(order) <==> j < |jobs| && how(j) == Appended
  {
    c, order := Collection({}, [], [], false), [];
    var todo := Places(|jobs|);
    while todo != {}
      invariant IsSchedule(jobs, order) && c == CollectAll(jobs, order) && Follows(order, how, c)
      invariant forall i | 0 <= i < |order| :: order[i].job in c.done
      invariant todo <= Places(|jobs|) && c.done == Places(|jobs|) - todo
      decreases todo
    {
      var job :| job in todo;
      PrepareNext(jobs, order, how, c, job);
      c, order := Collect(jobs, c, job, how(job)), order + [Prep(job, how(job))];
      todo := todo - {job};
    }
  }

  function Ahead(pc: Pc): nat {
    match pc
    case Waiting => 4
    case Started => 3
    case HasClient => 2
    case Sent => 1
    case Finished => 0
  }

  /** The events still to come. */
  function AllAhead(pcs: seq<Pc>): nat
    decreases |pcs|
  {
    if pcs == [] then 0 else AllAhead(pcs[..|pcs| - 1]) + Ahead(pcs[|pcs| - 1])
  }

  lemma {:induction false} AheadUpdate(pcs: seq<Pc>, i: nat, pc: Pc)
    requires i < |pcs|
    ensures AllAhead(pcs[i := pc]) + Ahead(pcs[i]) == AllAhead(pcs) + Ahead(pc)
    decreases |pcs|
  {
    var k := |pcs| - 1;
    if i == k {
      assert pcs[i := pc][..k] == pcs[..k];
    } else {
      assert pcs[i := pc][..k] == pcs[..k][i := pc];
      AheadUpdate(pcs[..k], i, pc);
    }
  }

  lemma {:induction false} RunNext(s: Sending, es: seq<Event>, e: Event)
    requires Shaped(s) && IsRun(s, es) && Enabled(After(s, es), e)
    ensures IsRun(s, es + [e]) && After(s, es + [e]) == Next(After(s, es), e)
    decreases |es|
  {
    var all := es + [e];
    if es == [] {
      assert all[1..] == [];
    } else {
      assert all[1..] == es[1..] + [e];
      RunNext(Next(s, es[0]), es[1..], e);
    }
  }

  /** What the goroutine does next, going well or not; a cached client is found. */
  function Move(s: Sending, i: nat, well: bool): (e: Event)
    requires Shaped(s) && i < s.created && s.pcs[i] != Finished && s.nodes[i] in s.pool
    ensures Enabled(s, e) && e.i == i && Ahead(Next(s, e).pcs[i]) < Ahead(s.pcs[i])
  {
    match s.pcs[i]
    case Waiting => Spawn(i)
    case Started => ClientOk(i)
    case HasClient => if well then DeployOk(i) else DeployFails(i)
    case Sent => if well then WaitOk(i) else WaitFails(i)
  }

  /** So far every goroutine went as the nodes would have it. */
  ghost predicate AsAnswered(t: Sending, takes: ContractId -> bool, comesUp: ContractId -> bool)
    requires Shaped(t)
  {
    forall i | 0 <= i < t.created ::
      && (t.pcs[i] == Sent ==> takes(t.contracts[i]))
      && (t.pcs[i] == Finished ==> (t.ids[i] != 0 <==> takes(t.contracts[i]) && comesUp(t.contracts[i])))
  }

  lemma MoveAsAnswered(t: Sending, i: nat, takes: ContractId -> bool, comesUp: ContractId -> bool)
    requires Inv(t) && AsAnswered(t, takes, comesUp) && i < t.created && t.pcs[i] != Finished
    ensures var e := Move(t, i, if t.pcs[i] == Sent then comesUp(t.contracts[i]) else takes(t.contracts[i]));
            && Inv(Next(t, e)) && AsAnswered(Next(t, e), takes, comesUp)
            && AllAhead(Next(t, e).pcs) < AllAhead(t.pcs)
  {
    var e := Move(t, i, if t.pcs[i] == Sent then comesUp(t.contracts[i]) else takes(t.contracts[i]));
    StepKeepsInv(t, e);
    assert Accounted(t, i);
    AheadUpdate(t.pcs, i, Next(t, e).pcs[i]);
    assert Next(t, e).pcs == t.pcs[i := Next(t, e).pcs[i]];
  }

  /** The senders run until all are done. `takes` says whether the node accepts the deployment
      sent for a contract, and `comesUp` whether the wait for it ends well. */
  method SendAll(s: Sending, takes: ContractId -> bool, comesUp: ContractId -> bool)
      returns (t: Sending, ghost es: seq<Event>)
    requires Start(s)
    ensures IsRun(s, es) && t == After(s, es) && Over(t) && AsAnswered(t, takes, comesUp)
  {
    t, es := s, [];
    while !Over(t)
      invariant Inv(t) && IsRun(s, es) && t == After(s, es)
      invariant AsAnswered(t, takes, comesUp)
      decreases AllAhead(t.pcs)
    {
      var i: nat :| i < t.created && t.pcs[i] != Finished;
      var e := Move(t, i, if t.pcs[i] == Sent then comesUp(t.contracts[i]) else takes(t.contracts[i]));
      RunNext(s, es, e);
      MoveAsAnswered(t, i, takes, comesUp);
      t, es := Next(t, e), es + [e];
    }
  }

  /** A contract is cancelled exactly when its deployment was refused or did not come up. */
  ghost predicate CancelsFailed(b: Report, takes: ContractId -> bool, comesUp: ContractId -> bool) {
    forall c | c in b.contracts :: c in b.canceled <==> !(takes(c) && comesUp(c))
  }

  lemma AnsweredIsReported(s: Sending, es: seq<Event>, takes: ContractId -> bool, comesUp: ContractId -> bool,
      data: seq<ContractData>)
    requires Inv(s) && IsRun(s, es) && Over(After(s, es)) && AsAnswered(After(s, es), takes, comesUp)
    requires s.created == |s.contracts|
    ensures CancelsFailed(ReportOf(After(s, es), s.contracts, data), takes, comesUp)
  {
    var t := After(s, es);
    RunKeepsInv(s, es);
    RunKeepsPlan(s, es);
    forall i | 0 <= i < |s.contracts|
      ensures s.contracts[i] in t.failed <==> !(takes(s.contracts[i]) && comesUp(s.contracts[i]))
    {
      assert Accounted(t, i);
    }
  }

  /** Sends what was collected for the contracts that were made, and reports. */
  method SendBatch(jobs: seq<Job>, ghost order: seq<Prep>, c: Collection, contracts: seq<ContractId>,
      pool: set<NodeId>, takes: ContractId -> bool, comesUp: ContractId -> bool)
      returns (b: Report)
    requires IsSchedule(jobs, order) && c == CollectAll(jobs, order)
    requires FreshContracts(contracts) && |contracts| <= |Appenders(order)|
    requires forall j | 0 <= j < |jobs| :: jobs[j].node in pool
    ensures AllReported(jobs, Appenders(order), b) && b.contracts == contracts && b.data == c.data
    ensures CancelsFailed(b, takes, comesUp)
  {
    BeginIsStart(jobs, order, contracts, pool);
    var t, es := SendAll(Begin(c, contracts, pool), takes, comesUp);
    BatchLosesNothing(jobs, order, contracts, pool, es);
    AnsweredIsReported(Begin(c, contracts, pool), es, takes, comesUp, c.data);
    var returned := GroupByNode(t.nodes, KeptOf(t));
    b := Report(c.data, KeptOf(t), contracts, returned, t.failed);
  }

  /** Every node of the batch has a client, and no preparation fails. */
  ghost predicate Ready(clients: map<NodeId, nat>, batch: seq<Share>, twins: NodeId -> Option<nat>,
      how: nat -> Prepared) {
    && (forall j | 0 <= j < |batch| :: batch[j].node in clients || twins(batch[j].node).Some?)
    && forall j: nat | j < |JobsOf(batch)| :: how(j) != Failed
  }

  /** Deploys a batch. `how` says how each job's preparation ends, `chain` what the chain answers
      to the creation, `takes` and `comesUp` what the nodes do. The contracts `made` exist
      afterwards or were cancelled. Nothing comes back exactly when a client cannot be had, a
      preparation fails or the whole creation does, and then no contract was made. Otherwise
      the jobs that were not skipped are all there, in the order `slots`. */
  method DeployBatch(pool: NodeClientPool, batch: seq<Share>, twins: NodeId -> Option<nat>,
        how: nat -> Prepared, chain: Option<seq<ContractId>>, takes: ContractId -> bool, comesUp: ContractId -> bool)
      returns (b: Option<Report>, made: seq<ContractId>, ghost slots: seq<nat>)
    requires chain.Some? ==> FreshContracts(chain.value)
    modifies pool
    ensures b.Some? <==> Ready(old(pool.clients), batch, twins, how) && chain.Some?
    ensures b.None? ==> made == []
    ensures b.Some? ==>
              && AllReported(JobsOf(batch), slots, b.value) && CancelsFailed(b.value, takes, comesUp)
              && b.value.contracts == made
              && made == (if |chain.value| <= |slots| then chain.value else chain.value[..|slots|])
              && forall j: nat :: j in slots <==> j < |JobsOf(batch)| && how(j) == Appended
  {
    b, made, slots := None, [], [];
    var loaded := LoadClients(pool, batch, twins);
    if !loaded { return; }
    var jobs := JobsOf(batch);
    JobsHaveShares(batch, pool.clients.Keys);
    var c, order := Prepare(jobs, how);
    if c.failed || chain.None? { return; }
    CollectedBelongTogether(jobs, order);
    slots := Appenders(order);
    made := if |chain.value| <= |c.data| then chain.value else chain.value[..|c.data|];
    var sent := SendBatch(jobs, order, c, made, pool.clients.Keys, takes, comesUp);
    b := Some(sent);
  }

  /** Without the cache the promise would not hold: a goroutine whose client lookup fails
      reports the id 0, so its contract is on neither side. */
  lemma LookupFailureLosesContract(s: Sending, i: nat)
    requires Shaped(s) && i < s.created && s.pcs[i] == Waiting && s.nodes[i] !in s.pool && s.failed == []
    requires forall j | 0 <= j < |s.ids| :: s.ids[j] == 0
    ensures var es := [Spawn(i), ClientFails(i)];
            && IsRun(s, es)
            && var t := After(s, es);
               && |t.pcs| == |s.pcs| && t.pcs[i] == Finished && s.contracts[i] !in t.failed
               && NotReturned(Returned(t.nodes, KeptOf(t)), s.contracts[i])
  {
    RunNext(s, [], Spawn(i));
    RunNext(s, [Spawn(i)], ClientFails(i));
    assert [] + [Spawn(i)] == [Spawn(i)] && [Spawn(i)] + [ClientFails(i)] == [Spawn(i), ClientFails(i)];
    var t := After(s, [Spawn(i), ClientFails(i)]);
    GroupedNever(t.nodes, KeptOf(t), s.contracts[i]);
  }
}
