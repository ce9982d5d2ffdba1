/** The deployer: it reconciles a map of live contracts with the wanted deployments, by
    deletions, creations and updates in that order, and on a failure goes back through the
    same steps.

    The chain and the nodes are one value, `grid`. Every call to them either succeeds and
    takes effect or fails and changes nothing; which of the two is the answer an arbitrary
    sequence has for it, one answer per call. */
module Deployer {
  import opened Wrappers
  import opened Versions

  type NodeId = nat
  type ContractId = nat

  datatype Grid = Grid(
    contracts: map<ContractId, NodeId>,      // the live contracts and their nodes
    hashes: map<ContractId, Deployment>,     // the hash each live contract carries
    running: map<ContractId, Deployment>,    // what the nodes hold
    next: ContractId)                        // ids from here on are unused

  /** The grid's own consistency: node-side deployments belong to live contracts, carry
      sound versions, and unused ids are unused. */
  predicate Sane(g: Grid) {
    && g.hashes.Keys == g.contracts.Keys
    && g.running.Keys <= g.contracts.Keys
    && (forall c | c in g.contracts :: c < g.next)
    && (forall c | c in g.running :: WellVersioned(g.running[c]))
  }

  /** The contract is live on the node. */
  predicate Live(g: Grid, c: ContractId, n: NodeId) {
    c in g.contracts && g.contracts[c] == n
  }

  predicate AllLive(g: Grid, m: map<NodeId, ContractId>) {
    forall n | n in m :: Live(g, m[n], n)
  }

  /** The pair is one of `m`. */
  predicate Pair(m: map<NodeId, ContractId>, n: NodeId, c: ContractId) {
    n in m && m[n] == c
  }

  /** Nothing is lost: `cur` is exactly the live contracts out of `prev` and of those created
      since `g0`, apart from `orphans`; what is neither is untouched. */
  ghost predicate Accounted(g0: Grid, prev: map<NodeId, ContractId>, g: Grid, cur: map<NodeId, ContractId>,
        orphans: set<ContractId>) {
    && g0.next <= g.next
    && (forall c | c in g.contracts :: if c in g0.contracts then g.contracts[c] == g0.contracts[c] else g0.next <= c)
    && (forall c, n :: Pair(cur, n, c) <==>
          Live(g, c, n) && c !in orphans && (Pair(prev, n, c) || g0.next <= c))
    && (forall c | c in orphans :: c in g.contracts && g0.next <= c)
    && (forall c, n | Live(g0, c, n) && !Pair(prev, n, c) :: Unchanged(g0, g, c))
  }

  /** The contract, its hash and its deployment are as they were. */
  predicate Unchanged(g0: Grid, g: Grid, c: ContractId) {
    && (c in g.contracts <==> c in g0.contracts) && (c in g0.contracts ==> g.contracts[c] == g0.contracts[c])
    && (c in g.hashes <==> c in g0.hashes) && (c in g0.hashes ==> g.hashes[c] == g0.hashes[c])
    && (c in g.running <==> c in g0.running) && (c in g0.running ==> g.running[c] == g0.running[c])
  }

  /** The contracts of `cur` are those of `prev`, untouched. */
  ghost predicate KeptAsIs(g0: Grid, prev: map<NodeId, ContractId>, g: Grid, cur: map<NodeId, ContractId>) {
    forall n | n in cur :: Pair(prev, n, cur[n]) && Unchanged(g0, g, cur[n])
  }

  /** The node runs the workloads of `dl`. */
  predicate Runs(g: Grid, c: ContractId, dl: Deployment) {
    c in g.running && Contents(g.running[c]) == Contents(dl)
  }

  /** Chain and node agree on the contract. */
  predicate Agrees(g: Grid, c: ContractId) {
    c in g.hashes && c in g.running && g.hashes[c] == g.running[c]
  }

  /** A contract of this call, running the wanted deployment as given. */
  predicate FreshlyRuns(g0: Grid, g: Grid, c: ContractId, dl: Deployment) {
    g0.next <= c && Agrees(g, c) && g.running[c] == dl
  }

  /** A contract from before, either untouched or updated on chain and node alike, the
      latter only when its deployment was not the wanted one already. */
  predicate Reconciled(g0: Grid, g: Grid, c: ContractId, dl: Deployment) {
    Unchanged(g0, g, c) || (c in g0.running && !SameAs(g0.running[c], dl) && Agrees(g, c))
  }

  /** A contract from before whose update the node refused: the chain has the new hash, the
      node the old deployment. */
  predicate HalfSent(g0: Grid, g: Grid, c: ContractId, dl: Deployment) {
    && c in g0.running && !SameAs(g0.running[c], dl)
    && c in g.running && g.running[c] == g0.running[c]
    && c in g.hashes && g.hashes[c] == Update(g0.running[c], dl)
  }

  predicate TrackedOne(g0: Grid, prev: map<NodeId, ContractId>, g: Grid, n: NodeId, c: ContractId,
      wanted: map<NodeId, Deployment>, untouched: bool, exit: Exit) {
    if n !in prev then n in wanted && FreshlyRuns(g0, g, c, wanted[n])
    else
      && prev[n] == c
      && if exit == Refused(c) then n in wanted && HalfSent(g0, g, c, wanted[n])
         else if untouched || n !in wanted then Unchanged(g0, g, c)
         else Reconciled(g0, g, c, wanted[n])
  }

  /** The state of every contract in `cur`; those of `todo` have not been touched yet. */
  ghost predicate Tracked(g0: Grid, prev: map<NodeId, ContractId>, g: Grid, cur: map<NodeId, ContractId>,
      wanted: map<NodeId, Deployment>, todo: set<NodeId>, exit: Exit) {
    && (forall n | n in cur :: TrackedOne(g0, prev, g, n, cur[n], wanted, n in todo, exit))
    && (exit.Refused? ==> exists n | n in cur :: cur[n] == exit.c)
  }

  ghost predicate OnlyTouches(g: Grid, g': Grid, c: ContractId) {
    forall d | d != c :: Unchanged(g, g', d)
  }

  lemma TrackedFrame(g0: Grid, prev: map<NodeId, ContractId>, g: Grid, g': Grid, cur: map<NodeId, ContractId>,
      wanted: map<NodeId, Deployment>, todo: set<NodeId>, c: ContractId, n: NodeId)
    requires OnlyTouches(g, g', c) && n in cur && cur[n] != c
    requires Tracked(g0, prev, g, cur, wanted, todo, Done)
    ensures TrackedOne(g0, prev, g', n, cur[n], wanted, n in todo, Done)
  {
    assert TrackedOne(g0, prev, g, n, cur[n], wanted, n in todo, Done);
    assert Unchanged(g, g', cur[n]);
  }

  predicate AllNew(dl: Deployment) {
    forall w | w in dl.workloads :: w.version == 0
  }

  /** How a call ends: well, with a failure after which everything is accounted for, with an
      update the chain accepted and the node refused, or with a created contract that could
      not be cancelled. */
  datatype Exit = Done | Failed | Refused(c: ContractId) | Orphaned(c: ContractId)

  function Orphans(e: Exit): set<ContractId> {
    if e.Orphaned? then {e.c} else {}
  }

  datatype Cancel = Canceled | NotExists | CancelFailed

  /** How many of the first `n` calls were answered with no. */
  function Noes(answers: nat -> bool, n: nat): nat {
    if n == 0 then 0 else Noes(answers, n - 1) + (if answers(n - 1) then 0 else 1)
  }

  /** Every call from the `lo`-th up to the `hi`-th was answered with yes. */
  predicate AllYes(answers: nat -> bool, lo: nat, hi: nat) {
    Noes(answers, hi) == Noes(answers, lo)
  }

  /** Calls are only ever added. */
  predicate Later(answers: nat -> bool, lo: nat, hi: nat) {
    lo <= hi && Noes(answers, lo) <= Noes(answers, hi)
  }

  lemma {:induction false} AllYesIff(answers: nat -> bool, lo: nat, hi: nat)
    requires lo <= hi
    ensures Later(answers, lo, hi)
    ensures AllYes(answers, lo, hi) <==> forall k: nat | lo <= k < hi :: answers(k)
    decreases hi
  {
    if lo != hi { AllYesIff(answers, lo, hi - 1); }
  }

  /** The deployment can come up on a new contract: no name twice, no workload ever updated. */
  predicate Creatable(dl: Deployment) {
    UniqueNames(dl.workloads) && AllNew(dl)
  }

  predicate NodeFeasible(g: Grid, prev: map<NodeId, ContractId>, wanted: map<NodeId, Deployment>, n: NodeId)
    requires n in wanted
  {
    if n in prev then prev[n] in g.running && UniqueNames(wanted[n].workloads) else Creatable(wanted[n])
  }

  /** What must hold before a call for it to end well, given that everything answers. */
  predicate Feasible(g: Grid, prev: map<NodeId, ContractId>, wanted: map<NodeId, Deployment>) {
    forall n | n in wanted :: NodeFeasible(g, prev, wanted, n)
  }

  /** The nodes of `prev` all answer for their clients and their deployments, which takes two
      calls each. */
  ghost predicate CanRead(answers: nat -> bool, from: nat, g: Grid, prev: map<NodeId, ContractId>) {
    AllYes(answers, from, from + 2 * |prev|) && forall n | n in prev :: prev[n] in g.running
  }

  lemma CannotRead(answers: nat -> bool, lo: nat, mid: nat, g: Grid, m: map<NodeId, ContractId>, n: NodeId)
    requires n in m && lo <= mid <= lo + 2 * |m|
    requires !AllYes(answers, lo, mid) || m[n] !in g.running
    ensures !CanRead(answers, lo, g, m)
  {
    AllYesIff(answers, lo, mid);
    AllYesIff(answers, mid, lo + 2 * |m|);
  }

  /** The nodes whose contract is gone ran deployments that were never updated. */
  ghost predicate Restorable(g0: Grid, prev: map<NodeId, ContractId>, left: map<NodeId, ContractId>)
    requires forall n | n in prev :: prev[n] in g0.running
  {
    forall n | n in prev && n !in left :: AllNew(g0.running[prev[n]])
  }

  lemma AccountedStart(g: Grid, prev: map<NodeId, ContractId>)
    requires Sane(g) && AllLive(g, prev)
    ensures Accounted(g, prev, g, prev, {})
  {
  }

  /** Two stretches of work account for everything together. */
  lemma AccountedCompose(g0: Grid, m0: map<NodeId, ContractId>, g1: Grid, m1: map<NodeId, ContractId>,
      o1: set<ContractId>, g2: Grid, m2: map<NodeId, ContractId>, o2: set<ContractId>)
    requires Sane(g0) && Sane(g1) && Sane(g2) && AllLive(g0, m0)
    requires Accounted(g0, m0, g1, m1, o1) && Accounted(g1, m1, g2, m2, o2)
    ensures Accounted(g0, m0, g2, m2, o1 + o2)
  {
    forall c, n
      ensures Pair(m2, n, c) <==> Live(g2, c, n) && c !in o1 + o2 && (Pair(m0, n, c) || g0.next <= c)
    {
      if c in o1 { assert Live(g1, c, g1.contracts[c]) && !Pair(m1, g1.contracts[c], c); }
      assert Pair(m1, n, c) <==> Live(g1, c, n) && c !in o1 && (Pair(m0, n, c) || g0.next <= c);
      assert Pair(m2, n, c) <==> Live(g2, c, n) && c !in o2 && (Pair(m1, n, c) || g1.next <= c);
    }
    forall c | c in o1 + o2 ensures c in g2.contracts && g0.next <= c {
      if c in o1 { assert Live(g1, c, g1.contracts[c]) && !Pair(m1, g1.contracts[c], c); }
    }
    forall c, n | Live(g0, c, n) && !Pair(m0, n, c) ensures Unchanged(g0, g2, c) {
      assert Unchanged(g0, g1, c);
      assert Live(g1, c, n) && !Pair(m1, n, c);
    }
  }

  // ----- How single steps account ---------------------------------------------------

  lemma DeleteAccounts(g0: Grid, prev: map<NodeId, ContractId>, g: Grid, cur: map<NodeId, ContractId>, n: NodeId)
    requires Sane(g0) && Sane(g) && AllLive(g0, prev) && Accounted(g0, prev, g, cur, {})
    requires n in cur && Pair(prev, n, cur[n])
    ensures Sane(Without(g, cur[n])) && Accounted(g0, prev, Without(g, cur[n]), cur - {n}, {})
  {
    var c := cur[n];
    assert Pair(cur, n, c);
    forall d, m ensures Pair(cur - {n}, m, d) <==>
                          Live(Without(g, c), d, m) && (Pair(prev, m, d) || g0.next <= d)
    {
      assert Pair(cur, m, d) <==> Live(g, d, m) && (Pair(prev, m, d) || g0.next <= d);
    }
  }

  lemma OrphanAccounts(g0: Grid, prev: map<NodeId, ContractId>, g: Grid, cur: map<NodeId, ContractId>,
      n: NodeId, c: ContractId, dl: Deployment)
    requires Sane(g0) && Sane(g) && AllLive(g0, prev) && Accounted(g0, prev, g, cur, {})
    requires c >= g.next
    ensures Accounted(g0, prev, Created(g, c, n, dl), cur, {c})
  {
  }

  /** A left-over contract becomes a node's. */
  lemma AdoptAccounts(g0: Grid, prev: map<NodeId, ContractId>, g: Grid, cur: map<NodeId, ContractId>,
      n: NodeId, c: ContractId, dl: Deployment)
    requires AllLive(g0, prev) && Sane(g0) && Accounted(g0, prev, g, cur, {c}) && Live(g, c, n) && n !in cur
    ensures Accounted(g0, prev, Started(g, c, dl), cur[n := c], {})
  {
    var g', cur' := Started(g, c, dl), cur[n := c];
    forall d, m ensures Pair(cur', m, d) <==> Live(g', d, m) && (Pair(prev, m, d) || g0.next <= d) {
      assert Pair(cur, m, d) <==> Live(g, d, m) && d != c && (Pair(prev, m, d) || g0.next <= d);
    }
    forall d, m | Live(g0, d, m) && !Pair(prev, m, d) ensures Unchanged(g0, g', d) {
      assert Unchanged(g0, g, d);
    }
  }

  lemma CreateAccounts(g0: Grid, prev: map<NodeId, ContractId>, g: Grid, cur: map<NodeId, ContractId>,
      n: NodeId, c: ContractId, dl: Deployment)
    requires Sane(g0) && Sane(g) && AllLive(g0, prev) && Accounted(g0, prev, g, cur, {})
    requires n !in cur && c >= g.next
    ensures Accounted(g0, prev, Started(Created(g, c, n, dl), c, dl), cur[n := c], {})
  {
    OrphanAccounts(g0, prev, g, cur, n, c, dl);
    AdoptAccounts(g0, prev, Created(g, c, n, dl), cur, n, c, dl);
  }

  lemma UpdateAccounts(g0: Grid, prev: map<NodeId, ContractId>, g: Grid, cur: map<NodeId, ContractId>,
      n: NodeId, h: Deployment, r: Deployment)
    requires Sane(g0) && AllLive(g0, prev) && Accounted(g0, prev, g, cur, {})
    requires n in cur && Pair(prev, n, cur[n]) && cur[n] in g.running
    ensures Accounted(g0, prev, Rehashed(g, cur[n], h), cur, {})
    ensures Accounted(g0, prev, Started(Rehashed(g, cur[n], h), cur[n], r), cur, {})
  {
  }

  // ----- Single calls ---------------------------------------------------------------

  predicate NotAhead(dl: Deployment) {
    forall w | w in dl.workloads :: w.version <= dl.version
  }

  /** Asked only of the nodes that have to be created: the versions of the others are
      overwritten. */
  predicate NewNotAhead(dls: map<NodeId, Deployment>, prev: map<NodeId, ContractId>) {
    forall n | n in dls && n !in prev :: NotAhead(dls[n])
  }

  function Without(g: Grid, c: ContractId): Grid {
    g.(contracts := g.contracts - {c}, hashes := g.hashes - {c}, running := g.running - {c})
  }

  function Created(g: Grid, c: ContractId, n: NodeId, dl: Deployment): Grid {
    g.(contracts := g.contracts[c := n], hashes := g.hashes[c := dl], next := c + 1)
  }

  function Started(g: Grid, c: ContractId, dl: Deployment): Grid {
    g.(running := g.running[c := dl])
  }

  function Rehashed(g: Grid, c: ContractId, dl: Deployment): Grid {
    g.(hashes := g.hashes[c := dl])
  }

  /** The update of contract `c` to `dl` as it is sent. */
  function Sent(g: Grid, c: ContractId, dl: Deployment): Deployment
    requires c in g.running
  {
    Update(g.running[c], dl)
  }

  predicate HasVersion(dl: Deployment, name: string, version: nat) {
    exists w | w in dl.workloads :: w.name == name && w.version == version
  }

  /** The versions waited for after a creation. */
  function Zeros(dl: Deployment): map<string, nat> {
    map name | name in ByName(dl.workloads) :: 0
  }

  /** Every expected name runs on the node in its version. */
  predicate CameUp(g: Grid, c: ContractId, expected: map<string, nat>) {
    c in g.running && forall name | name in expected :: HasVersion(g.running[c], name, expected[name])
  }

  /** Waiting for a created deployment can end well exactly when none of its workloads was
      ever updated. */
  lemma NewComesUpIff(g: Grid, c: ContractId, dl: Deployment)
    requires UniqueNames(dl.workloads) && c in g.running && g.running[c] == dl
    ensures CameUp(g, c, Zeros(dl)) <==> AllNew(dl)
  {
    if CameUp(g, c, Zeros(dl)) {
      assert forall name | name in ByName(dl.workloads) :: name in Zeros(dl) && HasVersion(dl, name, Zeros(dl)[name]);
      AllZero(dl);
    }
    if AllNew(dl) {
      forall name | name in Zeros(dl) ensures HasVersion(dl, name, 0) {
        var i := ByNameHasOnly(dl.workloads, name);
        assert dl.workloads[i] in dl.workloads;
      }
    }
  }

  lemma CreatedAndCancelled(g: Grid, c: ContractId, n: NodeId, dl: Deployment)
    requires Sane(g) && c >= g.next
    ensures Without(Created(g, c, n, dl), c) == g.(next := c + 1)
  {
    var g' := Without(Created(g, c, n, dl), c);
    assert g'.contracts == g.contracts && g'.hashes == g.hashes && g'.running == g.running;
  }

  lemma SameIsUnique(prev: Deployment, dl: Deployment)
    requires UniqueNames(prev.workloads) && SameAs(prev, dl)
    ensures UniqueNames(dl.workloads)
  {
    var m := Matched(prev, dl);
    forall i, j | 0 <= i < j < |dl.workloads| ensures dl.workloads[i].name != dl.workloads[j].name {
      assert m.workloads[i].name == dl.workloads[i].name && m.workloads[j].name == dl.workloads[j].name;
    }
  }

  /** The versions waited for after an update are those the node then has. */
  lemma UpdateComesUp(g: Grid, c: ContractId, u: Deployment)
    requires UniqueNames(u.workloads) && c in g.running && g.running[c] == u
    ensures CameUp(g, c, VersionsOf(u.workloads))
  {
    forall name | name in VersionsOf(u.workloads) ensures HasVersion(u, name, VersionsOf(u.workloads)[name]) {
      var i := ByNameHasOnly(u.workloads, name);
      VersionsAt(u.workloads, i);
      assert u.workloads[i] in u.workloads;
    }
  }

  lemma UpdateDiffers(prev: Deployment, dl: Deployment)
    ensures Update(prev, dl) != prev
  {
  }

  lemma SameAsItself(dl: Deployment)
    requires UniqueNames(dl.workloads)
    ensures SameAs(dl, dl)
  {
    var m := Matched(dl, dl);
    forall i | 0 <= i < |dl.workloads| ensures m.workloads[i] == dl.workloads[i] {
      ByNameAt(dl.workloads, i);
    }
    assert m.workloads == dl.workloads;
  }

  /** Work on an id that was unused leaves every tracked contract as it was. */
  lemma FreshTracks(g0: Grid, prev: map<NodeId, ContractId>, g: Grid, g': Grid, cur: map<NodeId, ContractId>,
      wanted: map<NodeId, Deployment>, c: ContractId)
    requires Sane(g) && Accounted(g0, prev, g, cur, {}) && Tracked(g0, prev, g, cur, wanted, wanted.Keys, Done)
    requires OnlyTouches(g, g', c) && g.next <= c
    ensures Tracked(g0, prev, g', cur, wanted, wanted.Keys, Done)
  {
    forall n | n in cur ensures TrackedOne(g0, prev, g', n, cur[n], wanted, n in wanted.Keys, Done) {
      assert Pair(cur, n, cur[n]) && Live(g, cur[n], n);
      TrackedFrame(g0, prev, g, g', cur, wanted, wanted.Keys, c, n);
    }
  }

  lemma CreateTracks(g0: Grid, prev: map<NodeId, ContractId>, g: Grid, cur: map<NodeId, ContractId>,
      wanted: map<NodeId, Deployment>, n: NodeId, c: ContractId)
    requires Sane(g) && Accounted(g0, prev, g, cur, {}) && Tracked(g0, prev, g, cur, wanted, wanted.Keys, Done)
    requires g.next <= c && n in wanted && n !in prev && n !in cur
    ensures Tracked(g0, prev, Started(Created(g, c, n, wanted[n]), c, wanted[n]), cur[n := c], wanted, wanted.Keys,
        Done)
  {
    var g', cur' := Started(Created(g, c, n, wanted[n]), c, wanted[n]), cur[n := c];
    FreshTracks(g0, prev, g, g', cur, wanted, c);
    forall m | m in cur' ensures TrackedOne(g0, prev, g', m, cur'[m], wanted, m in wanted.Keys, Done) {
      if m != n { assert TrackedOne(g0, prev, g', m, cur[m], wanted, m in wanted.Keys, Done); }
    }
  }

  lemma CreatedNext(g0: Grid, prev: map<NodeId, ContractId>, g: Grid, cur: map<NodeId, ContractId>,
      wanted: map<NodeId, Deployment>, n: NodeId, c: ContractId)
    requires Sane(g0) && Sane(g) && AllLive(g0, prev) && Accounted(g0, prev, g, cur, {})
    requires Tracked(g0, prev, g, cur, wanted, wanted.Keys, Done)
    requires g.next <= c && n in wanted && n !in prev && n !in cur
    ensures var g', cur' := Started(Created(g, c, n, wanted[n]), c, wanted[n]), cur[n := c];
            Accounted(g0, prev, g', cur', {}) && Tracked(g0, prev, g', cur', wanted, wanted.Keys, Done)
  {
    CreateAccounts(g0, prev, g, cur, n, c, wanted[n]);
    CreateTracks(g0, prev, g, cur, wanted, n, c);
  }

  /** A creation that failed, with its contract cancelled again or left over. */
  lemma NotCreatedNext(g0: Grid, prev: map<NodeId, ContractId>, g: Grid, g': Grid, cur: map<NodeId, ContractId>,
      wanted: map<NodeId, Deployment>, n: NodeId, exit: Exit)
    requires Sane(g0) && Sane(g) && AllLive(g0, prev) && Accounted(g0, prev, g, cur, {})
    requires Tracked(g0, prev, g, cur, wanted, wanted.Keys, Done) && n in wanted
    requires exit.Orphaned? ==> exit.c >= g.next && g' == Created(g, exit.c, n, wanted[n])
    requires !exit.Orphaned? ==> g.next <= g'.next && g' == g.(next := g'.next)
    ensures Accounted(g0, prev, g', cur, Orphans(exit)) && Tracked(g0, prev, g', cur, wanted, wanted.Keys, Done)
  {
    if exit.Orphaned? { OrphanAccounts(g0, prev, g, cur, n, exit.c, wanted[n]); }
    FreshTracks(g0, prev, g, g', cur, wanted, if exit.Orphaned? then exit.c else g.next);
  }

  lemma UpdateTracks(g0: Grid, prev: map<NodeId, ContractId>, g: Grid, g': Grid, cur: map<NodeId, ContractId>,
      wanted: map<NodeId, Deployment>, todo: set<NodeId>, node: NodeId, exit: Exit)
    requires Sane(g) && Accounted(g0, prev, g, cur, {}) && Tracked(g0, prev, g, cur, wanted, todo, Done)
    requires node in cur && node in todo && node in prev && node in wanted
    requires OnlyTouches(g, g', cur[node])
    requires TrackedOne(g0, prev, g', node, cur[node], wanted, false, exit)
    requires exit.Refused? ==> exit.c == cur[node]
    ensures Tracked(g0, prev, g', cur, wanted, todo - {node}, exit)
  {
    forall n | n in cur ensures TrackedOne(g0, prev, g', n, cur[n], wanted, n in todo - {node}, exit) {
      assert Pair(cur, n, cur[n]) && Live(g, cur[n], n) && Pair(cur, node, cur[node]) && Live(g, cur[node], node);
      if n != node { TrackedFrame(g0, prev, g, g', cur, wanted, todo, cur[node], n); }
    }
  }

  /** What the nodes hold for `m`. */
  predicate IsSnapshot(g: Grid, m: map<NodeId, ContractId>, dls: map<NodeId, Deployment>) {
    dls.Keys == m.Keys && forall n | n in m :: m[n] in g.running && dls[n] == g.running[m[n]]
  }

  /** How a whole deployment ends. */
  datatype Report =
    | Rejected
    | Deployed
    | LeftAsIs(first: Exit)
    | NoSnapshot(first: Exit)
    | RevertFailed(first: Exit, second: Exit)
    | Reverted(first: Exit)

  function OrphansOf(r: Report): set<ContractId> {
    match r
    case LeftAsIs(e) => Orphans(e)
    case NoSnapshot(e) => Orphans(e)
    case Reverted(e) => Orphans(e)
    case RevertFailed(e, f) => Orphans(e) + Orphans(f)
    case _ => {}
  }

  /** The nodes are those of `prev` again, each running what it ran. A node that had to be
      created again is one whose deployment had never been updated, since waiting for a new
      deployment expects version 0 throughout. Where chain and node agreed before they agree
      again, except exactly on the contract whose update the node refused: the rollback finds
      the node unchanged and leaves the new hash on the chain. */
  ghost predicate RolledBack(g0: Grid, prev: map<NodeId, ContractId>, g: Grid, cur: map<NodeId, ContractId>,
        first: Exit) {
    && cur.Keys == prev.Keys
    && forall n | n in prev ::
         && prev[n] in g0.running && Runs(g, cur[n], g0.running[prev[n]])
         && (cur[n] != prev[n] ==> AllNew(g0.running[prev[n]]))
         && (Agrees(g0, prev[n]) ==> (Agrees(g, cur[n]) <==> first != Refused(cur[n])))
  }

  /** Each of the nodes runs what is wanted. */
  ghost predicate AllRun(g: Grid, cur: map<NodeId, ContractId>, wanted: map<NodeId, Deployment>, nodes: set<NodeId>) {
    forall n | n in nodes :: n in cur && n in wanted && Runs(g, cur[n], wanted[n])
  }

  /** All but the old nodes among `todo` run what is wanted, and it was feasible for them. */
  ghost predicate Settled(g0: Grid, prev: map<NodeId, ContractId>, g: Grid, cur: map<NodeId, ContractId>,
      wanted: map<NodeId, Deployment>, todo: set<NodeId>) {
    forall n | n in wanted && !(n in todo && n in prev) ::
      && n in cur && Runs(g, cur[n], wanted[n])
      && (n in prev ==> NodeFeasible(g0, prev, wanted, n))
  }

  lemma SettledNext(g0: Grid, prev: map<NodeId, ContractId>, g: Grid, g': Grid, cur: map<NodeId, ContractId>,
      wanted: map<NodeId, Deployment>, todo: set<NodeId>, node: NodeId)
    requires Accounted(g0, prev, g, cur, {}) && Settled(g0, prev, g, cur, wanted, todo)
    requires node in cur && node in wanted && OnlyTouches(g, g', cur[node]) && Runs(g', cur[node], wanted[node])
    requires node in prev ==> NodeFeasible(g0, prev, wanted, node)
    ensures Settled(g0, prev, g', cur, wanted, todo - {node})
  {
    forall n | n in wanted && n != node && !(n in todo && n in prev) ensures Runs(g', cur[n], wanted[n]) {
      assert Pair(cur, n, cur[n]) && Live(g, cur[n], n) && Pair(cur, node, cur[node]) && Live(g, cur[node], node);
      assert Unchanged(g, g', cur[n]);
    }
  }

  class Deployer {
    var grid: Grid
    var asked: nat
    const answers: nat -> bool
    const revertOnFailure: bool

    constructor (grid: Grid, answers: nat -> bool, revertOnFailure: bool)
      ensures this.grid == grid && this.answers == answers && this.revertOnFailure == revertOnFailure && asked == 0
    {
      this.grid, this.answers, this.revertOnFailure, asked := grid, answers, revertOnFailure, 0;
    }

    /** One call was made. */
    predicate Asked(before: nat, after: nat) {
      after == before + 1 && Noes(answers, after) == Noes(answers, before) + (if answers(before) then 0 else 1)
    }

    /** A call that answers or does not: a node client, a signature, a hash. */
    method Answers() returns (ok: bool)
      modifies this`asked
      ensures ok == answers(old(asked)) && Asked(old(asked), asked)
    {
      ok := answers(asked);
      asked := asked + 1;
    }

    /** Structural validation; in particular no workload name is repeated. */
    method Valid(dl: Deployment) returns (ok: bool)
      modifies this`asked
      ensures ok == (answers(old(asked)) && UniqueNames(dl.workloads)) && Asked(old(asked), asked)
    {
      ok := Answers();
      ok := ok && UniqueNames(dl.workloads);
    }

    method EnsureContractCanceled(c: ContractId) returns (r: Cancel)
      modifies this`grid, this`asked
      ensures Asked(old(asked), asked)
      ensures r == if !answers(old(asked)) then CancelFailed
                   else if c !in old(grid).contracts then NotExists else Canceled
      ensures grid == if r == Canceled then Without(old(grid), c) else old(grid)
    {
      var ok := Answers();
      if !ok {
        r := CancelFailed;
      } else if c !in grid.contracts {
        r := NotExists;
      } else {
        grid := Without(grid, c);
        r := Canceled;
      }
    }

    method CreateNodeContract(n: NodeId, dl: Deployment) returns (ok: bool, c: ContractId)
      modifies this`grid, this`asked
      ensures ok == answers(old(asked)) && Asked(old(asked), asked)
      ensures ok ==> c >= old(grid).next && grid == Created(old(grid), c, n, dl)
      ensures !ok ==> grid == old(grid)
    {
      ok := Answers();
      c := grid.next;
      if ok {
        c :| c >= grid.next;
        grid := Created(grid, c, n, dl);
      }
    }

    method UpdateNodeContract(c: ContractId, dl: Deployment) returns (ok: bool)
      requires c in grid.contracts
      modifies this`grid, this`asked
      ensures ok == answers(old(asked)) && Asked(old(asked), asked)
      ensures grid == if ok then Rehashed(old(grid), c, dl) else old(grid)
    {
      ok := Answers();
      if ok { grid := Rehashed(grid, c, dl); }
    }

    method DeploymentDeploy(c: ContractId, dl: Deployment) returns (ok: bool)
      modifies this`grid, this`asked
      ensures ok == answers(old(asked)) && Asked(old(asked), asked)
      ensures grid == if ok then Started(old(grid), c, dl) else old(grid)
    {
      ok := Answers();
      if ok { grid := Started(grid, c, dl); }
    }

    /** An update the node takes is applied by its own rule. */
    method DeploymentUpdate(c: ContractId, dl: Deployment) returns (ok: bool)
      requires c in grid.running
      modifies this`grid, this`asked
      ensures ok == answers(old(asked)) && Asked(old(asked), asked)
      ensures grid == if ok then Started(old(grid), c, NodeApply(old(grid).running[c], dl)) else old(grid)
    {
      ok := Answers();
      if ok { grid := Started(grid, c, NodeApply(grid.running[c], dl)); }
    }

    method DeploymentGet(c: ContractId) returns (r: Option<Deployment>)
      modifies this`asked
      ensures Asked(old(asked), asked)
      ensures r == if answers(old(asked)) && c in grid.running then Some(grid.running[c]) else None
    {
      var ok := Answers();
      r := if ok && c in grid.running then Some(grid.running[c]) else None;
    }

    /** Waiting ends well only when every expected name has come up in its version. */
    method Wait(c: ContractId, expected: map<string, nat>) returns (ok: bool)
      modifies this`asked
      ensures ok == (answers(old(asked)) && CameUp(grid, c, expected)) && Asked(old(asked), asked)
    {
      ok := Answers();
      ok := ok && CameUp(grid, c, expected);
    }

    // ----- One node -----------------------------------------------------------------

    /** Signs the deployment and checks its structure. */
    method SignedAndValid(dl: Deployment) returns (ok: bool)
      modifies this`asked
      ensures Later(answers, old(asked), asked)
      ensures ok <==> AllYes(answers, old(asked), asked) && UniqueNames(dl.workloads)
      ensures ok ==> asked == old(asked) + 2
    {
      ok := Answers();
      if !ok { return; }
      ok := Valid(dl);
    }

    /** Creates the contract and puts the deployment on the node; if the node does not take it
        the contract is cancelled again, or left over. */
    method Place(n: NodeId, dl: Deployment) returns (exit: Exit, c: ContractId)
      requires Sane(grid)
      modifies this`grid, this`asked
      ensures old(grid).next <= grid.next
      ensures exit.Done? ==> c >= old(grid).next && grid == Started(Created(old(grid), c, n, dl), c, dl)
      ensures exit.Failed? ==> grid == old(grid).(next := grid.next)
      ensures exit.Orphaned? ==> exit.c >= old(grid).next && grid == Created(old(grid), exit.c, n, dl)
      ensures !exit.Refused?
      ensures Later(answers, old(asked), asked) && (exit.Done? <==> AllYes(answers, old(asked), asked))
      ensures exit.Done? ==> asked == old(asked) + 2
      ensures exit.Orphaned? ==> Noes(answers, asked) == Noes(answers, old(asked)) + 2
      ensures !exit.Done? ==> Sane(grid)
    {
      var created;
      created, c := CreateNodeContract(n, dl);
      if !created { return Failed, c; }
      var deployed := DeploymentDeploy(c, dl);
      if deployed { return Done, c; }
      var r := EnsureContractCanceled(c);
      if r != Canceled { return Orphaned(c), c; }
      CreatedAndCancelled(old(grid), c, n, dl);
      exit := Failed;
    }

    /** Creates the contract and the deployment of one node. On a failure after the contract
        exists it is cancelled again, unless the deployment is already on the node. */
    method CreateOne(n: NodeId, dl: Deployment) returns (exit: Exit, kept: Option<ContractId>)
      requires Sane(grid) && NotAhead(dl)
      modifies this`grid, this`asked
      ensures Sane(grid) && old(grid).next <= grid.next
      ensures match kept
              case None => exit.Failed? || exit.Orphaned?
              case Some(c) =>
                && c >= old(grid).next && (exit.Done? || exit.Failed?)
                && grid == Started(Created(old(grid), c, n, dl), c, dl)
      ensures exit.Orphaned? ==> exit.c >= old(grid).next && grid == Created(old(grid), exit.c, n, dl)
      ensures exit.Failed? && kept.None? ==> grid == old(grid).(next := grid.next)
      ensures exit.Done? ==> kept.Some?
      ensures Later(answers, old(asked), asked) && (exit.Done? <==> AllYes(answers, old(asked), asked) && Creatable(dl))
      ensures exit.Done? ==> asked == old(asked) + 6
      ensures exit.Orphaned? ==> Noes(answers, asked) == Noes(answers, old(asked)) + 2
    {
      kept := None;
      var reached := Answers();
      if !reached { return Failed, kept; }
      var ready := SignedAndValid(dl);
      if !ready { return Failed, kept; }
      var c;
      exit, c := Place(n, dl);
      if !exit.Done? { return; }
      kept := Some(c);
      NewComesUpIff(grid, c, dl);
      var up := Wait(c, Zeros(dl));
      exit := if up then Done else Failed;
    }

    /** Fetches what the node holds and prepares the new deployment against it. */
    method Compare(oldDl: Deployment, dl: Deployment) returns (draft: Draft, same: bool)
      ensures fresh(draft) && draft.Value() == Matched(oldDl, dl)
      ensures same <==> SameAs(oldDl, dl)
    {
      draft := new Draft(dl);
      draft.MatchOldVersions(oldDl);
      var sameNames := SameWorkloadsNames(draft.Value(), oldDl);
      if oldDl == draft.Value() {
        forall i | 0 <= i < |oldDl.workloads| ensures Named(draft.Value().workloads, oldDl.workloads[i].name) {}
      }
      same := oldDl == draft.Value() && sameNames;
    }

    /** Brings one live contract to `dl`, sending nothing when nothing changed. */
    method UpdateOne(n: NodeId, c: ContractId, dl: Deployment) returns (exit: Exit)
      requires Sane(grid) && Live(grid, c, n)
      modifies this`grid, this`asked
      ensures Sane(grid)
      ensures exit.Done? || exit.Failed? || exit == Refused(c)
      ensures exit.Done? ==> Runs(grid, c, dl)
      ensures exit == Refused(c) ==> c in old(grid).running && grid == Rehashed(old(grid), c, Sent(old(grid), c, dl))
      ensures !exit.Refused? ==>
                || grid == old(grid)
                || (c in old(grid).running
                    && grid == Started(Rehashed(old(grid), c, Sent(old(grid), c, dl)), c, Sent(old(grid), c, dl)))
      ensures c in old(grid).running && SameAs(old(grid).running[c], dl) ==> grid == old(grid) && !exit.Refused?
      ensures Later(answers, old(asked), asked)
      ensures exit.Done? <==>
                AllYes(answers, old(asked), asked) && c in old(grid).running && UniqueNames(dl.workloads)
      ensures exit.Done? ==> asked == old(asked) + if SameAs(old(grid).running[c], dl) then 2 else 7
    {
      var reached := Answers();
      if !reached { return Failed; }
      var oldDl := DeploymentGet(c);
      if oldDl.None? { return Failed; }
      var draft, same := Compare(oldDl.value, dl);
      if same {
        SameRunsTheSame(oldDl.value, dl);
        SameIsUnique(oldDl.value, dl);
        return Done;
      }
      exit := SendUpdate(c, oldDl.value, draft, dl);
    }

    /** Sends the prepared draft: first its hash to the chain, then itself to the node. */
    method SendUpdate(c: ContractId, oldDl: Deployment, draft: Draft, ghost dl: Deployment) returns (exit: Exit)
      requires Sane(grid) && c in grid.running && grid.running[c] == oldDl
      requires draft.Value() == Matched(oldDl, dl)
      modifies this`grid, this`asked, draft
      ensures Sane(grid)
      ensures exit.Done? || exit.Failed? || exit == Refused(c)
      ensures exit.Done? ==> Runs(grid, c, dl)
      ensures exit == Refused(c) ==> grid == Rehashed(old(grid), c, Update(oldDl, dl))
      ensures !exit.Refused? ==>
                || grid == old(grid)
                || grid == Started(Rehashed(old(grid), c, Update(oldDl, dl)), c, Update(oldDl, dl))
      ensures Later(answers, old(asked), asked)
      ensures exit.Done? <==> AllYes(answers, old(asked), asked) && UniqueNames(dl.workloads)
      ensures exit.Done? ==> asked == old(asked) + 5
    {
      var expected := draft.AssignVersions(oldDl);
      var u := draft.Value();
      var ready := SignedAndValid(u);
      UpdateNamesIff(oldDl, dl);
      if !ready { return Failed; }
      UpdateWellVersioned(oldDl, dl);
      UpdateIsReplacement(oldDl, dl);
      exit := Replace(c, u, expected);
    }

    /** The hash to the chain, the deployment to the node, and the wait. */
    method Replace(c: ContractId, u: Deployment, expected: map<string, nat>) returns (exit: Exit)
      requires Sane(grid) && c in grid.running && WellVersioned(u) && NodeApply(grid.running[c], u) == u
      requires expected == VersionsOf(u.workloads)
      modifies this`grid, this`asked
      ensures Sane(grid)
      ensures match exit
              case Done => grid == Started(Rehashed(old(grid), c, u), c, u)
              case Failed => grid == old(grid) || grid == Started(Rehashed(old(grid), c, u), c, u)
              case Refused(d) => d == c && grid == Rehashed(old(grid), c, u)
              case Orphaned(_) => false
      ensures Later(answers, old(asked), asked) && (exit.Done? <==> AllYes(answers, old(asked), asked))
      ensures exit.Done? ==> asked == old(asked) + 3
    {
      var accepted := UpdateNodeContract(c, u);
      if !accepted { return Failed; }
      var updated := DeploymentUpdate(c, u);
      if !updated { return Refused(c); }
      UpdateComesUp(grid, c, u);
      var up := Wait(c, expected);
      exit := if up then Done else Failed;
    }

    // ----- All nodes ----------------------------------------------------------------

    /** Cancels the contract of one node. */
    method DeleteOne(ghost g0: Grid, ghost prev: map<NodeId, ContractId>, node: NodeId, cur: map<NodeId, ContractId>)
        returns (ok: bool, cur': map<NodeId, ContractId>)
      requires Sane(g0) && Sane(grid) && AllLive(g0, prev) && Accounted(g0, prev, grid, cur, {})
      requires KeptAsIs(g0, prev, grid, cur) && node in cur
      modifies this`grid, this`asked
      ensures Sane(grid) && Accounted(g0, prev, grid, cur', {}) && KeptAsIs(g0, prev, grid, cur')
      ensures cur' == if ok then cur - {node} else cur
      ensures ok == answers(old(asked)) && Asked(old(asked), asked)
    {
      assert Pair(prev, node, cur[node]);
      DeleteAccounts(g0, prev, grid, cur, node);
      forall n | n in cur && n != node ensures cur[n] != cur[node] {
        assert Live(g0, cur[n], n) && Live(g0, cur[node], node);
      }
      var r := EnsureContractCanceled(cur[node]);
      ok := r != CancelFailed;
      cur' := if ok then cur - {node} else cur;
    }

    /** Cancels the contracts of nodes that are no longer wanted. */
    method DeleteStale(prev: map<NodeId, ContractId>, wanted: set<NodeId>) returns (exit: Exit,
          cur: map<NodeId, ContractId>)
      requires Sane(grid) && AllLive(grid, prev)
      modifies this`grid, this`asked
      ensures Sane(grid) && Accounted(old(grid), prev, grid, cur, {}) && KeptAsIs(old(grid), prev, grid, cur)
      ensures exit.Done? || exit.Failed?
      ensures exit.Done? ==> cur.Keys == prev.Keys * wanted
      ensures Later(answers, old(asked), asked) && (exit.Done? <==> AllYes(answers, old(asked), asked))
    {
      ghost var g0 := grid;
      cur := prev;
      AccountedStart(grid, prev);
      var todo := prev.Keys;
      while todo != {}
        invariant Sane(grid) && Accounted(g0, prev, grid, cur, {}) && KeptAsIs(g0, prev, grid, cur)
        invariant forall n :: n in cur <==> n in todo || (n in prev && n in wanted)
        invariant old(asked) <= asked && AllYes(answers, old(asked), asked)
        decreases todo
      {
        var node :| node in todo;
        if node !in wanted {
          var ok;
          ok, cur := DeleteOne(g0, prev, node, cur);
          if !ok { return Failed, cur; }
        }
        todo := todo - {node};
      }
      exit := Done;
    }

    /** Creates one wanted node. */
    method CreateNext(ghost g0: Grid, ghost prev: map<NodeId, ContractId>, cur: map<NodeId, ContractId>,
        wanted: map<NodeId, Deployment>, node: NodeId) returns (exit: Exit, cur': map<NodeId, ContractId>)
      requires Sane(g0) && Sane(grid) && AllLive(g0, prev) && Accounted(g0, prev, grid, cur, {})
      requires Tracked(g0, prev, grid, cur, wanted, wanted.Keys, Done)
      requires node in wanted && node !in prev && node !in cur && NotAhead(wanted[node])
      modifies this`grid, this`asked
      ensures Sane(grid) && Accounted(g0, prev, grid, cur', Orphans(exit))
      ensures Tracked(g0, prev, grid, cur', wanted, wanted.Keys, Done)
      ensures !exit.Refused?
      ensures exit.Done? ==> cur'.Keys == cur.Keys + {node}
      ensures Later(answers, old(asked), asked)
      ensures exit.Done? <==> AllYes(answers, old(asked), asked) && NodeFeasible(g0, prev, wanted, node)
      ensures exit.Orphaned? ==> Noes(answers, asked) == Noes(answers, old(asked)) + 2
      ensures forall n | n in cur :: n in cur' && cur'[n] == cur[n]
    {
      ghost var g := grid;
      var kept;
      exit, kept := CreateOne(node, wanted[node]);
      cur' := if kept.Some? then cur[node := kept.value] else cur;
      if kept.Some? {
        CreatedNext(g0, prev, g, cur, wanted, node, kept.value);
      } else {
        NotCreatedNext(g0, prev, g, grid, cur, wanted, node, exit);
      }
    }

    /** Creates the wanted nodes that have no contract yet. */
    method CreateMissing(ghost g0: Grid, prev: map<NodeId, ContractId>, start: map<NodeId, ContractId>,
        wanted: map<NodeId, Deployment>) returns (exit: Exit, cur: map<NodeId, ContractId>)
      requires Sane(g0) && Sane(grid) && AllLive(g0, prev) && NewNotAhead(wanted, prev)
      requires Accounted(g0, prev, grid, start, {})
      requires Tracked(g0, prev, grid, start, wanted, wanted.Keys, Done)
      requires forall n :: n in start <==> n in prev && n in wanted
      modifies this`grid, this`asked
      ensures Sane(grid) && Accounted(g0, prev, grid, cur, Orphans(exit))
      ensures Tracked(g0, prev, grid, cur, wanted, wanted.Keys, Done)
      ensures !exit.Refused?
      ensures exit.Done? ==> cur.Keys == wanted.Keys
      ensures Later(answers, old(asked), asked)
      ensures exit.Done? <==>
                && AllYes(answers, old(asked), asked)
                && forall n | n in wanted && n !in prev :: NodeFeasible(g0, prev, wanted, n)
      ensures exit.Orphaned? ==> Noes(answers, asked) == Noes(answers, old(asked)) + 2
    {
      cur := start;
      var todo := wanted.Keys;
      while todo != {}
        invariant Sane(grid) && Accounted(g0, prev, grid, cur, {})
        invariant Tracked(g0, prev, grid, cur, wanted, wanted.Keys, Done)
        invariant todo <= wanted.Keys
        invariant forall n :: n in cur <==> n in wanted && (n in prev || n !in todo)
        invariant forall n | n in wanted && n !in prev && n !in todo :: NodeFeasible(g0, prev, wanted, n)
        invariant old(asked) <= asked && AllYes(answers, old(asked), asked)
        decreases todo
      {
        var node :| node in todo;
        if node !in prev {
          exit, cur := CreateNext(g0, prev, cur, wanted, node);
          if !exit.Done? { return; }
        }
        todo := todo - {node};
      }
      exit := Done;
    }

    /** Updates one node that stays. */
    method UpdateNext(ghost g0: Grid, ghost prev: map<NodeId, ContractId>, cur: map<NodeId, ContractId>,
        wanted: map<NodeId, Deployment>, ghost todo: set<NodeId>, node: NodeId) returns (exit: Exit)
      requires Sane(g0) && Sane(grid) && AllLive(g0, prev) && Accounted(g0, prev, grid, cur, {})
      requires Tracked(g0, prev, grid, cur, wanted, todo, Done)
      requires node in wanted && node in prev && node in cur && node in todo
      modifies this`grid, this`asked
      ensures Sane(grid) && Accounted(g0, prev, grid, cur, {})
      ensures Tracked(g0, prev, grid, cur, wanted, todo - {node}, exit)
      ensures exit.Done? || exit.Failed? || exit == Refused(cur[node])
      ensures OnlyTouches(old(grid), grid, cur[node])
      ensures exit.Done? ==> Runs(grid, cur[node], wanted[node])
      ensures Later(answers, old(asked), asked)
      ensures exit.Done? <==>
                AllYes(answers, old(asked), asked) && NodeFeasible(g0, prev, wanted, node)
    {
      ghost var g, c := grid, cur[node];
      assert TrackedOne(g0, prev, g, node, c, wanted, true, Done);
      assert Pair(cur, node, c) && Live(g, c, node);
      exit := UpdateOne(node, cur[node], wanted[node]);
      if c in g.running {
        ghost var u := Sent(g, c, wanted[node]);
        UpdateAccounts(g0, prev, g, cur, node, u, u);
      }
      UpdateTracks(g0, prev, g, grid, cur, wanted, todo, node, exit);
    }

    /** Updates the node if it stays; after a creation there is nothing to do. */
    method UpdateIfOld(ghost g0: Grid, prev: map<NodeId, ContractId>, cur: map<NodeId, ContractId>,
        wanted: map<NodeId, Deployment>, ghost todo: set<NodeId>, node: NodeId) returns (exit: Exit)
      requires Sane(g0) && Sane(grid) && AllLive(g0, prev) && Accounted(g0, prev, grid, cur, {})
      requires Tracked(g0, prev, grid, cur, wanted, todo, Done)
      requires node in wanted && node in cur && node in todo
      requires Settled(g0, prev, grid, cur, wanted, todo)
      modifies this`grid, this`asked
      ensures Sane(grid) && Accounted(g0, prev, grid, cur, {})
      ensures Tracked(g0, prev, grid, cur, wanted, if exit.Done? then todo - {node} else {}, exit)
      ensures !exit.Orphaned?
      ensures exit.Done? ==> Settled(g0, prev, grid, cur, wanted, todo - {node})
      ensures Later(answers, old(asked), asked)
      ensures exit.Done? <==>
                AllYes(answers, old(asked), asked) && (node in prev ==> NodeFeasible(g0, prev, wanted, node))
    {
      if node in prev {
        ghost var g := grid;
        exit := UpdateNext(g0, prev, cur, wanted, todo, node);
        if exit.Done? {
          SettledNext(g0, prev, g, grid, cur, wanted, todo, node);
        } else {
          NoneLeft(g0, prev, grid, cur, wanted, todo - {node}, exit);
        }
      } else {
        NotMine(g0, prev, grid, cur, wanted, todo, node);
        exit := Done;
      }
    }

    /** Updates the nodes that stay. */
    method UpdateExisting(ghost g0: Grid, prev: map<NodeId, ContractId>, cur: map<NodeId, ContractId>,
        wanted: map<NodeId, Deployment>) returns (exit: Exit)
      requires Sane(g0) && Sane(grid) && AllLive(g0, prev) && Accounted(g0, prev, grid, cur, {})
      requires Tracked(g0, prev, grid, cur, wanted, wanted.Keys, Done)
      requires cur.Keys == wanted.Keys && Settled(g0, prev, grid, cur, wanted, wanted.Keys)
      modifies this`grid, this`asked
      ensures Sane(grid) && Accounted(g0, prev, grid, cur, {})
      ensures Tracked(g0, prev, grid, cur, wanted, {}, exit)
      ensures !exit.Orphaned?
      ensures exit.Done? ==> Settled(g0, prev, grid, cur, wanted, {})
      ensures Later(answers, old(asked), asked)
      ensures exit.Done? <==>
                && AllYes(answers, old(asked), asked)
                && forall n | n in wanted && n in prev :: NodeFeasible(g0, prev, wanted, n)
    {
      var todo := wanted.Keys;
      exit := Done;
      while todo != {}
        invariant Sane(grid) && Accounted(g0, prev, grid, cur, {})
        invariant Tracked(g0, prev, grid, cur, wanted, todo, Done)
        invariant todo <= wanted.Keys
        invariant Settled(g0, prev, grid, cur, wanted, todo)
        invariant Later(answers, old(asked), asked) && AllYes(answers, old(asked), asked)
        decreases todo
      {
        var node :| node in todo;
        exit := UpdateIfOld(g0, prev, cur, wanted, todo, node);
        if !exit.Done? { return; }
        todo := todo - {node};
      }
      exit := Done;
    }

    /** Deletions, creations, updates. The map returned is the contracts that are left, on
        every way out. */
    method Reconcile(prev: map<NodeId, ContractId>, wanted: map<NodeId, Deployment>)
        returns (exit: Exit, cur: map<NodeId, ContractId>)
      requires Sane(grid) && AllLive(grid, prev) && NewNotAhead(wanted, prev)
      modifies this`grid, this`asked
      ensures Sane(grid) && Accounted(old(grid), prev, grid, cur, Orphans(exit))
      ensures Tracked(old(grid), prev, grid, cur, wanted, {}, exit)
      ensures exit.Done? ==>
                && cur.Keys == wanted.Keys
                && AllRun(grid, cur, wanted, wanted.Keys)
      ensures Later(answers, old(asked), asked)
      ensures exit.Done? <==> AllYes(answers, old(asked), asked) && Feasible(old(grid), prev, wanted)
      ensures exit.Orphaned? ==> Noes(answers, asked) == Noes(answers, old(asked)) + 2
    {
      ghost var g0 := grid;
      exit, cur := DeleteStale(prev, wanted.Keys);
      assert Tracked(g0, prev, grid, cur, wanted, wanted.Keys, Done);
      if !exit.Done? {
        NoneLeft(g0, prev, grid, cur, wanted, wanted.Keys, exit);
        return;
      }
      exit, cur := CreateMissing(g0, prev, cur, wanted);
      if !exit.Done? {
        NoneLeft(g0, prev, grid, cur, wanted, wanted.Keys, exit);
        return;
      }
      FreshRun(g0, prev, grid, cur, wanted);
      exit := UpdateExisting(g0, prev, cur, wanted);
    }

    /** What one node holds. */
    method ReadOne(c: ContractId) returns (r: Option<Deployment>)
      modifies this`asked
      ensures Later(answers, old(asked), asked) && asked <= old(asked) + 2
      ensures r.Some? <==> AllYes(answers, old(asked), asked) && c in grid.running
      ensures r.Some? ==> asked == old(asked) + 2 && r.value == grid.running[c]
    {
      var reached := Answers();
      if !reached { return None; }
      r := DeploymentGet(c);
    }

    /** Reads node after node up to the first that fails. */
    method ReadUpTo(m: map<NodeId, ContractId>)
        returns (r: Option<map<NodeId, Deployment>>, ghost failed: NodeId)
      modifies this`asked
      ensures Later(answers, old(asked), asked) && asked <= old(asked) + 2 * |m|
      ensures r.Some? ==> IsSnapshot(grid, m, r.value) && asked == old(asked) + 2 * |m|
      ensures r.Some? ==> AllYes(answers, old(asked), asked)
      ensures r.None? ==> failed in m && (!AllYes(answers, old(asked), asked) || m[failed] !in grid.running)
    {
      var dls: map<NodeId, Deployment> := map[];
      var todo := m.Keys;
      ghost var left := |m|;
      failed := 0;
      while todo != {}
        invariant todo <= m.Keys && left == |todo|
        invariant forall n :: n in dls <==> n in m && n !in todo
        invariant forall n | n in dls :: m[n] in grid.running && dls[n] == grid.running[m[n]]
        invariant asked + 2 * left == old(asked) + 2 * |m|
        invariant Later(answers, old(asked), asked) && AllYes(answers, old(asked), asked)
        decreases todo
      {
        var node :| node in todo;
        var dl := ReadOne(m[node]);
        if dl.None? { return None, node; }
        dls := dls[node := dl.value];
        todo, left := todo - {node}, left - 1;
      }
      r := Some(dls);
    }

    /** What the nodes hold for the given contracts, if all of them answer. */
    method GetDeployments(m: map<NodeId, ContractId>) returns (r: Option<map<NodeId, Deployment>>)
      modifies this`asked
      ensures r.Some? <==> CanRead(answers, old(asked), grid, m)
      ensures r.Some? ==> IsSnapshot(grid, m, r.value) && asked == old(asked) + 2 * |m|
      ensures Later(answers, old(asked), asked)
    {
      ghost var failed;
      r, failed := ReadUpTo(m);
      if r.None? { CannotRead(answers, old(asked), asked, grid, m, failed); }
    }

    /** After a failure, back to the deployments that were found at first: a second pass,
        which ends well exactly when everything answers and the nodes whose contract is gone
        can come up again. */
    method Revert(ghost g0: Grid, ghost prev: map<NodeId, ContractId>, ghost wanted: map<NodeId, Deployment>,
        first: Exit, snapshot: map<NodeId, Deployment>, start: map<NodeId, ContractId>)
      returns (report: Report, cur: map<NodeId, ContractId>)
      requires Sane(g0) && Sane(grid) && AllLive(g0, prev) && NewNotAhead(snapshot, start)
          && IsSnapshot(g0, prev, snapshot)
      requires Accounted(g0, prev, grid, start, Orphans(first)) && Tracked(g0, prev, grid, start, wanted, {}, first)
      modifies this`grid, this`asked
      ensures Sane(grid) && Accounted(g0, prev, grid, cur, OrphansOf(report))
      ensures Later(answers, old(asked), asked)
      ensures if AllYes(answers, old(asked), asked) && Restorable(g0, prev, start) then report == Reverted(first)
              else report.RevertFailed? && report.first == first
      ensures report.Reverted? ==> RolledBack(g0, prev, grid, cur, first)
    {
      ghost var g1 := grid;
      LiveAfter(g0, prev, g1, start, Orphans(first));
      FeasibleIffRestorable(g0, prev, g1, start, wanted, first, snapshot);
      var second;
      second, cur := Reconcile(start, snapshot);
      report := if second.Done? then Reverted(first) else RevertFailed(first, second);
      RevertAccounts(g0, prev, g1, start, first, grid, cur, second);
      if second.Done? { RevertRollsBack(g0, prev, g1, start, wanted, first, grid, cur, snapshot); }
    }

    /** What is done about the first pass: nothing when it ended well, when going back was not
        asked for or when there is nothing to go back to. */
    method AfterFirst(ghost g0: Grid, prev: map<NodeId, ContractId>, ghost wanted: map<NodeId, Deployment>,
        first: Exit, snapshot: Option<map<NodeId, Deployment>>, start: map<NodeId, ContractId>)
      returns (report: Report, cur: map<NodeId, ContractId>)
      requires Sane(g0) && Sane(grid) && AllLive(g0, prev)
      requires snapshot.Some? ==> IsSnapshot(g0, prev, snapshot.value)
      requires Accounted(g0, prev, grid, start, Orphans(first)) && Tracked(g0, prev, grid, start, wanted, {}, first)
      modifies this`grid, this`asked
      ensures Sane(grid) && Accounted(g0, prev, grid, cur, OrphansOf(report))
      ensures Later(answers, old(asked), asked)
      ensures if first.Done? then report == Deployed
              else if !revertOnFailure then report == LeftAsIs(first)
              else if snapshot.None? then report == NoSnapshot(first)
              else if AllYes(answers, old(asked), asked) && Restorable(g0, prev, start) then report == Reverted(first)
              else report.RevertFailed? && report.first == first
      ensures report.Deployed? || report.LeftAsIs? || report.NoSnapshot? ==>
                grid == old(grid) && cur == start && asked == old(asked)
      ensures report.Reverted? ==> RolledBack(g0, prev, grid, cur, first)
    {
      cur := start;
      if first.Done? {
        report := Deployed;
      } else if !revertOnFailure {
        report := LeftAsIs(first);
      } else if snapshot.None? {
        report := NoSnapshot(first);
      } else {
        SnapshotNotAhead(g0, prev, snapshot.value);
        report, cur := Revert(g0, prev, wanted, first, snapshot.value, start);
      }
    }

    /** Reads the old deployments, and, if that succeeds, has the request checked. */
    method Check(prev: map<NodeId, ContractId>) returns (oldDls: Option<map<NodeId, Deployment>>, rejected: bool)
      modifies this`asked
      ensures oldDls.Some? <==> CanRead(answers, old(asked), grid, prev)
      ensures oldDls.Some? ==> IsSnapshot(grid, prev, oldDls.value) && asked == old(asked) + 2 * |prev| + 1
      ensures rejected <==> oldDls.Some? && !answers(old(asked) + 2 * |prev|)
      ensures old(asked) <= asked
    {
      oldDls := GetDeployments(prev);
      rejected := false;
      if oldDls.Some? {
        var ok := Answers();
        rejected := !ok;
      }
    }

    /** Deploys the wanted deployments; with `revertOnFailure`, a failure leads back to what
        the nodes held at the start.

        The first pass runs from the `begun`-th call up to the `ended`-th and ends with
        `first`, leaving the contracts `left` in the grid `between`. It ends well exactly when
        everything answers it and the request is feasible. When it does not, `revertOnFailure`
        and whether the old deployments could be read decide whether there is a second pass,
        which goes back, and what it takes for that to succeed. */
    method Deploy(prev: map<NodeId, ContractId>, wanted: map<NodeId, Deployment>)
        returns (report: Report, cur: map<NodeId, ContractId>,
          ghost begun: nat, ghost ended: nat, ghost first: Exit,
          ghost left: map<NodeId, ContractId>, ghost between: Grid)
      requires Sane(grid) && AllLive(grid, prev) && NewNotAhead(wanted, prev)
      modifies this`grid, this`asked
      ensures Sane(grid) && Accounted(old(grid), prev, grid, cur, OrphansOf(report))
      ensures report.Rejected? <==>
                CanRead(answers, old(asked), old(grid), prev) && !answers(old(asked) + 2 * |prev|)
      ensures report.Rejected? ==> grid == old(grid) && cur == prev
      ensures old(asked) <= begun <= ended <= asked
      ensures CanRead(answers, old(asked), old(grid), prev) ==> begun == old(asked) + 2 * |prev| + 1
      ensures !report.Rejected? ==>
                && Accounted(old(grid), prev, between, left, Orphans(first))
                && Tracked(old(grid), prev, between, left, wanted, {}, first)
                && (first.Done? <==> AllYes(answers, begun, ended) && Feasible(old(grid), prev, wanted))
                && (first.Orphaned? ==> Noes(answers, ended) == Noes(answers, begun) + 2)
                && if first.Done? then report == Deployed
                   else if !revertOnFailure then report == LeftAsIs(first)
                   else if !CanRead(answers, old(asked), old(grid), prev) then report == NoSnapshot(first)
                   else if AllYes(answers, ended, asked) && Restorable(old(grid), prev, left)
                   then report == Reverted(first)
                   else report.RevertFailed? && report.first == first
      ensures report.Deployed? || report.LeftAsIs? || report.NoSnapshot? ==>
                grid == between && cur == left && asked == ended
      ensures report.Deployed? ==> cur.Keys == wanted.Keys && AllRun(grid, cur, wanted, wanted.Keys)
      ensures report.Reverted? ==> RolledBack(old(grid), prev, grid, cur, first)
      ensures (forall k: nat :: answers(k)) && Feasible(old(grid), prev, wanted) ==> report == Deployed
    {
      ghost var g0 := grid;
      first, left, between := Done, prev, grid;
      var oldDls, rejected := Check(prev);
      begun, ended := asked, asked;
      if rejected {
        AccountedStart(grid, prev);
        report, cur := Rejected, prev;
        return;
      }
      var exit;
      exit, cur := Reconcile(prev, wanted);
      ended, first, left, between := asked, exit, cur, grid;
      if forall k: nat :: answers(k) { AllYesIff(answers, begun, ended); }
      report, cur := AfterFirst(g0, prev, wanted, exit, oldDls, cur);
    }
  }

  /** What nodes hold is sound, so that it can be sent again. */
  lemma SnapshotNotAhead(g: Grid, prev: map<NodeId, ContractId>, dls: map<NodeId, Deployment>)
    requires Sane(g) && IsSnapshot(g, prev, dls)
    ensures forall n | n in dls :: NotAhead(dls[n])
  {
  }

  /** Going back is feasible exactly when what is gone can be created again: what is left
      still runs something, and what nodes held has no name twice. */
  lemma FeasibleIffRestorable(g0: Grid, prev: map<NodeId, ContractId>, g1: Grid, m1: map<NodeId, ContractId>,
      wanted: map<NodeId, Deployment>, first: Exit, snapshot: map<NodeId, Deployment>)
    requires Sane(g0) && IsSnapshot(g0, prev, snapshot) && Tracked(g0, prev, g1, m1, wanted, {}, first)
    ensures Feasible(g1, m1, snapshot) <==> Restorable(g0, prev, m1)
  {
    forall n | n in snapshot && n in m1 ensures m1[n] in g1.running {
      assert TrackedOne(g0, prev, g1, n, m1[n], wanted, false, first);
    }
  }

  lemma LiveAfter(g0: Grid, prev: map<NodeId, ContractId>, g: Grid, cur: map<NodeId, ContractId>,
        orphans: set<ContractId>)
    requires Accounted(g0, prev, g, cur, orphans)
    ensures AllLive(g, cur)
  {
  }

  lemma RevertAccounts(g0: Grid, prev: map<NodeId, ContractId>, g1: Grid, start: map<NodeId, ContractId>, first: Exit,
      g2: Grid, cur: map<NodeId, ContractId>, second: Exit)
    requires Sane(g0) && Sane(g1) && Sane(g2) && AllLive(g0, prev)
    requires Accounted(g0, prev, g1, start, Orphans(first)) && Accounted(g1, start, g2, cur, Orphans(second))
    ensures Accounted(g0, prev, g2, cur,
        OrphansOf(if second.Done? then Reverted(first) else RevertFailed(first, second)))
  {
    AccountedCompose(g0, prev, g1, start, Orphans(first), g2, cur, Orphans(second));
    assert second.Done? ==> Orphans(first) + Orphans(second) == Orphans(first);
  }

  lemma NodeRollsBack(g0: Grid, prev: map<NodeId, ContractId>, g1: Grid, m1: map<NodeId, ContractId>,
      wanted: map<NodeId, Deployment>, first: Exit, g2: Grid, n: NodeId, c: ContractId, dl: Deployment)
    requires Sane(g0) && n in prev && n in m1 && prev[n] in g0.running && dl == g0.running[prev[n]]
    requires TrackedOne(g0, prev, g1, n, m1[n], wanted, false, first)
    requires TrackedOne(g1, m1, g2, n, c, map[n := dl], false, Done)
    ensures c == prev[n] && (Agrees(g0, c) ==> (Agrees(g2, c) <==> first != Refused(c)))
  {
    SameAsItself(dl);
    if first == Refused(m1[n]) { UpdateDiffers(dl, wanted[n]); }
  }

  /** A rollback that ends well brings back what the nodes held. */
  lemma RevertRollsBack(g0: Grid, prev: map<NodeId, ContractId>, g1: Grid, m1: map<NodeId, ContractId>,
      wanted: map<NodeId, Deployment>, first: Exit, g2: Grid, m2: map<NodeId, ContractId>, dls: map<NodeId, Deployment>)
    requires Sane(g0) && IsSnapshot(g0, prev, dls) && AllLive(g1, m1) && Sane(g1)
    requires Tracked(g0, prev, g1, m1, wanted, {}, first) && Tracked(g1, m1, g2, m2, dls, {}, Done)
    requires m2.Keys == dls.Keys && AllRun(g2, m2, dls, dls.Keys)
    requires forall n | n in dls && n !in m1 :: AllNew(dls[n])
    ensures RolledBack(g0, prev, g2, m2, first)
  {
    forall n | n in prev
      ensures m2[n] != prev[n] ==> AllNew(dls[n])
      ensures Agrees(g0, prev[n]) ==> (Agrees(g2, m2[n]) <==> first != Refused(m2[n]))
    {
      assert TrackedOne(g1, m1, g2, n, m2[n], dls, false, Done);
      if n in m1 {
        assert TrackedOne(g0, prev, g1, n, m1[n], wanted, false, first);
        NodeRollsBack(g0, prev, g1, m1, wanted, first, g2, n, m2[n], dls[n]);
      } else if first.Refused? {
        var k :| k in m1 && m1[k] == first.c;
        assert Live(g1, m1[k], k);
      }
    }
  }

  // ----- Where the rollback falls short ---------------------------------------------------

  function OneWorkload(version: nat, data: string): Deployment {
    Deployment(version, "", [Workload("vm", version, Content("zmachine", data, "", ""))])
  }

  /** One contract on one node, which runs `running` while the chain has the hash of `hash`. */
  function OneContract(hash: Deployment, running: Deployment): Grid {
    Grid(map[1 := 7], map[1 := hash], map[1 := running], 2)
  }

  /** The node refuses an update: the rollback sees it run what it ran, so there is nothing to
      send and nothing to wait for, and the chain keeps the hash of the update. */
  lemma RefusedHashStays(before: Deployment, wanted: Deployment)
    requires before == OneWorkload(0, "a") && wanted == OneWorkload(0, "b")
    ensures var g0, g1 := OneContract(before, before), OneContract(Update(before, wanted), before);
            && Sane(g0) && Agrees(g0, 1) && HalfSent(g0, g1, 1, wanted)
            && SameAs(g1.running[1], before) && !Agrees(g1, 1)
            && RolledBack(g0, map[7 := 1], g1, map[7 := 1], Refused(1))
  {
    SameAsItself(before);
    UpdateDiffers(before, wanted);
    ByNameAt(before.workloads, 0);
    assert Matched(before, wanted).workloads[0] != before.workloads[0];
    assert forall w | w in before.workloads :: w == before.workloads[0];
  }

  /** A deployment that was updated once and whose contract is gone does not come back: created
      again as it was, it carries a version that the wait does not expect. */
  lemma UpdatedIsNotRecreated(g: Grid, dl: Deployment)
    requires dl == OneWorkload(1, "a")
    ensures var g' := Started(Created(g, g.next, 7, dl), g.next, dl);
            WellVersioned(dl) && !CameUp(g', g.next, Zeros(dl))
  {
    assert dl.workloads[0] in dl.workloads;
    NewComesUpIff(Started(Created(g, g.next, 7, dl), g.next, dl), g.next, dl);
  }

  lemma FreshRun(g0: Grid, prev: map<NodeId, ContractId>, g: Grid, cur: map<NodeId, ContractId>,
        wanted: map<NodeId, Deployment>)
    requires Tracked(g0, prev, g, cur, wanted, wanted.Keys, Done) && cur.Keys == wanted.Keys
    ensures Settled(g0, prev, g, cur, wanted, wanted.Keys)
  {
  }

  lemma NotMine(g0: Grid, prev: map<NodeId, ContractId>, g: Grid, cur: map<NodeId, ContractId>,
      wanted: map<NodeId, Deployment>, todo: set<NodeId>, node: NodeId)
    requires Tracked(g0, prev, g, cur, wanted, todo, Done) && node !in prev
    ensures Tracked(g0, prev, g, cur, wanted, todo - {node}, Done)
  {
  }

  /** A call may stop before it has touched everything. */
  lemma NoneLeft(g0: Grid, prev: map<NodeId, ContractId>, g: Grid, cur: map<NodeId, ContractId>,
      wanted: map<NodeId, Deployment>, todo: set<NodeId>, exit: Exit)
    requires Tracked(g0, prev, g, cur, wanted, todo, exit)
      || (Tracked(g0, prev, g, cur, wanted, todo, Done) && !exit.Refused?)
    ensures Tracked(g0, prev, g, cur, wanted, {}, exit)
  {
  }

  lemma AllZero(dl: Deployment)
    requires UniqueNames(dl.workloads)
    requires forall name | name in ByName(dl.workloads) :: HasVersion(dl, name, 0)
    ensures AllNew(dl)
  {
    forall w | w in dl.workloads ensures w.version == 0 {
      var i :| 0 <= i < |dl.workloads| && dl.workloads[i] == w;
      ByNameHas(dl.workloads, i);
      assert HasVersion(dl, w.name, 0);
      var v :| v in dl.workloads && v.name == w.name && v.version == 0;
      var j :| 0 <= j < |dl.workloads| && dl.workloads[j] == v;
    }
  }

  lemma UpdateNamesIff(prev: Deployment, dl: Deployment)
    ensures UniqueNames(Update(prev, dl).workloads) <==> UniqueNames(dl.workloads)
  {
    var u := Update(prev, dl);
    assert |u.workloads| == |dl.workloads|;
    forall i | 0 <= i < |dl.workloads| ensures u.workloads[i].name == dl.workloads[i].name {}
  }
}
