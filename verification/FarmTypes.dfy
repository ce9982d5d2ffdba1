/** The farm's nodes as the bot keeps them, and the arithmetic of their capacities. Time is a
    whole number of seconds; capacities are natural numbers without an upper bound. */
module FarmTypes {
  import opened Wrappers

  type NodeId = nat
  type Time = int

  /** Unsigned sums and differences wrap around here. */
  const WORD: nat := 0x1_0000_0000_0000_0000

  const CLAIM_TIMEOUT: Time := 1800
  const WAKE_UP_DURATION: Time := 1800

  datatype Capacity = Capacity(cru: nat, sru: nat, mru: nat, hru: nat)
  {
    function Plus(c: Capacity): Capacity {
      Capacity(cru + c.cru, sru + c.sru, mru + c.mru, hru + c.hru)
    }

    function Minus(c: Capacity): Capacity {
      Capacity(SubtractOrZero(cru, c.cru), SubtractOrZero(sru, c.sru), SubtractOrZero(mru, c.mru),
          SubtractOrZero(hru, c.hru))
    }

    predicate IsEmpty() { cru == 0 && sru == 0 && mru == 0 && hru == 0 }

    predicate AtMost(c: Capacity) { cru <= c.cru && sru <= c.sru && mru <= c.mru && hru <= c.hru }
  }

  const NOTHING := Capacity(0, 0, 0, 0)

  function SubtractOrZero(a: nat, b: nat): nat {
    if a > b then a - b else 0
  }

  /** The order of the constructors is the order in which candidates are preferred. */
  datatype PowerState = On | WakingUp | Off | ShuttingDown
  {
    function Rank(): nat {
      match this
      case On => 0
      case WakingUp => 1
      case Off => 2
      case ShuttingDown => 3
    }
  }

  datatype Gpu = Gpu(vendor: string, device: string)

  /** What the chain knows about a node. */
  datatype ChainNode = ChainNode(id: NodeId, twin: nat, resources: Capacity, certified: bool, publicConfig: bool)

  datatype Node = Node(
    chain: ChainNode,
    total: Capacity,
    used: Capacity,
    system: Capacity,
    publicIPsUsed: nat,
    gpus: seq<Gpu>,
    rented: bool,
    contracts: bool,
    dedicated: bool,
    neverShutDown: bool,
    power: PowerState,
    claimedUntil: Time,
    lastPowerChange: Time,
    lastAwake: Time,
    randomWakeUps: nat,
    lastPeriodicWakeUp: Time)
  {
    function Id(): NodeId { chain.id }

    /** Used by nobody but the system. */
    predicate IsUnused() { used.Minus(system).IsEmpty() && !rented }

    predicate HasClaim(now: Time) { claimedUntil > now }

    predicate CanShutDown(now: Time) {
      && power == On
      && IsUnused()
      && !chain.publicConfig
      && !neverShutDown
      && !rented
      && !contracts
      && !HasClaim(now)
      && now - lastPowerChange >= WAKE_UP_DURATION
    }

    /** What is left of the total, with the CPU counted `overProvision` times. */
    function Free(overProvision: nat): Capacity {
      total.(cru := total.cru * overProvision).Minus(used)
    }

    predicate CanClaim(c: Capacity, overProvision: nat) {
      c.cru <= total.cru && c.AtMost(Free(overProvision))
    }

    function Claim(c: Capacity): Node { this.(used := used.Plus(c)) }
  }

  predicate UniqueIds(nodes: seq<Node>) {
    forall i, j | 0 <= i < j < |nodes| :: nodes[i].Id() != nodes[j].Id()
  }

  predicate HasId(nodes: seq<Node>, id: NodeId) {
    exists i | 0 <= i < |nodes| :: nodes[i].Id() == id
  }

  /** The place of the first node with the id. */
  function IndexOf(nodes: seq<Node>, id: NodeId): (r: Option<nat>)
    ensures r.Some? ==> r.value < |nodes| && nodes[r.value].Id() == id
    ensures r.Some? ==> forall j | 0 <= j < r.value :: nodes[j].Id() != id
    ensures r.None? ==> forall j | 0 <= j < |nodes| :: nodes[j].Id() != id
  {
    IndexFrom(nodes, id, 0)
  }

  function IndexFrom(nodes: seq<Node>, id: NodeId, k: nat): (r: Option<nat>)
    requires k <= |nodes|
    ensures r.Some? ==> k <= r.value < |nodes| && nodes[r.value].Id() == id
    ensures r.Some? ==> forall j | k <= j < r.value :: nodes[j].Id() != id
    ensures r.None? ==> forall j | k <= j < |nodes| :: nodes[j].Id() != id
    decreases |nodes| - k
  {
    if k == |nodes| then None
    else if nodes[k].Id() == id then Some(k)
    else IndexFrom(nodes, id, k + 1)
  }

  /** The nodes in a given power state. */
  function InState(nodes: seq<Node>, states: set<PowerState>): seq<Node>
    decreases |nodes|
  {
    if nodes == [] then []
    else
      var init, last := nodes[..|nodes| - 1], nodes[|nodes| - 1];
      InState(init, states) + (if last.power in states then [last] else [])
  }

  lemma {:induction false} InStateOnly(nodes: seq<Node>, states: set<PowerState>)
    ensures forall n | n in InState(nodes, states) :: n in nodes && n.power in states
    decreases |nodes|
  {
    if nodes != [] {
      InStateOnly(nodes[..|nodes| - 1], states);
      assert nodes == nodes[..|nodes| - 1] + [nodes[|nodes| - 1]];
    }
  }
}
