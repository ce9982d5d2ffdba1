# Verified models of the grid SDK

These Dafny modules model the parts of the ThreeFold grid SDK that plan, reconcile and schedule,
and prove what those parts are for. `dafny verify dfyconfig.toml` checks everything.

Code that works by changing things in place is a class or a method here; each such method is
proved equal to a function of its inputs or of the old state, and the promises are lemmas about
those functions.

**Networks** (`Addresses`, `Subnets`, `Mesh`, `Generation`, `ZNets`, `Networks`). A WireGuard network
gives every node and the external user a /24, picks a public node, and writes one configuration per
node. `Subnets` has the allocation and its runs; `Mesh` has the configurations and what it means to
follow them; `Generation` has the choice of the public node; `ZNets` has the network object with its
loops; `Networks` joins them: what is generated is one network. Packets are routed as in section 2,
"Cryptokey Routing", of the WireGuard paper: out by the one peer whose allowed addresses contain the
destination, in only if the allowed addresses of the sender's peer contain the source.

**Deployments** (`Versions`, `Deployer`, `BatchDeploy`). The deployer reconciles a map of live
contracts with wanted deployments by deletions, creations and updates, and goes back through the same
steps after a failure. Chain and nodes are one value; each call to them takes effect and succeeds, or
fails and changes nothing. Which of the two is the answer an arbitrary sequence has for it, so that
results are told exactly by the answers; the order of every map is left open. The batch deployer is a
state machine whose steps a scheduler picks freely, from the batch to what it returns.

**The farmer bot** (`FarmTypes`, `FarmState`, `FarmPower`, `FarmMargins`, `FarmGpus`, `FarmFind`,
`FarmRounds`, `FarmRuns`, `FarmVisits`, `FarmerBots`). A list of nodes driven by finds, operator calls and
periodic rounds, against a clock. `FarmerBots` has the bot's loops, and the other modules the functions they
compute and what those guarantee.

**Allocators** (`StoragePools`, `HostIds`, `HostCollisions`, `K8sIps`) and **dispatch** (`Routes`,
`WeightedChoice`, `Sorting`). Disks on storage pools, host ids for machines, dotted routes with
middlewares, weighted choice. `Sequences` and `Wrappers` are shared helpers.

Where the code does not keep a promise for every input, these theorems say exactly when it does, and
beside each is a lemma with an input for which it does not:

- A failed `AssignNodesIPs` may store a user subnet that a dropped node still holds: exactly when octets
  run out, a user octet is picked, and it is a stored one (`Subnets.AssignSeparateIff`, over runs
  `Subnets.RunSoundIff`; input: `Subnets.FailedCallCanCollide`).
- A preset public node outside the network has no host in the configurations, and a supplied one that
  answers with IPv6 is written without brackets (`Networks.GeneratedLinksComeUpIff`; inputs:
  `Networks.PresetOutsiderHasNoHost`, `Networks.SuppliedV6HasNoHost`).
- A rollback leaves the new hash on the chain for exactly the contract whose update the node refused
  (`Deployer.RevertRollsBack`; input: `Deployer.RefusedHashStays`), and can recreate exactly the deployments
  whose workloads all had version 0 (`Deployer.NewComesUpIff`, for a whole call `Deployer.Deployer.Deploy`;
  input: `Deployer.UpdatedIsNotRecreated`).
- The remaining-capacity test of the power manager wraps around once the running use exceeds the running
  total (`FarmPower.TooLowIsHalfSafeIff`; input: `FarmMargins.OverusePasses`). Before the call it is enough
  for the counted nodes that no node is used beyond its total (`FarmPower.NoOveruseIsHalfSafe`). A node
  that went down is still counted exactly when its power-off was rejected and yet recorded
  (`FarmPower.CountedIff`; input: `FarmMargins.RecordedIsStillCounted`); without such, the nodes that stay
  on are half-way safe as well (`FarmMargins.StayingOnIsHalfSafe`).
- A pool with more used than its size counts as almost 2^64 free, since the difference wraps around: a yes
  means a placement within the sizes exactly without such pools (`StoragePools.YesIsPlaceableIff`), and
  more room keeps every yes exactly unless it ends such an excess (`StoragePools.MoreRoomStillFitsIff`;
  input for both: `StoragePools.OverusedSaysYes`).
- A node that fails to list its addresses counts as having none, and the batch goes on: automatic
  addresses keep off those in use, whatever they are, exactly when every node on which one was chosen
  has listed its own (`HostIds.AvoidsIff`; input: `HostIds.UnheardIsRepeated`).
- The sum of public IPs in a find wraps around: claims stay within the farm's exactly when no request
  that finds a node makes it do so (`FarmFind.FindsKeepPublicIPsIff`; input: `FarmFind.HugeRequestIsMet`).
- A round keeps a vanished node that stands behind another (`FarmRuns.SweepCleanIff`; input:
  `FarmRuns.NeighbourStays`).
- A forced power-on is forgotten when the node, read before it, is written back after it
  (`FarmVisits.ForcedWakeUpShowsIff`).
- A GPU whose name is asked for twice counts twice (`FarmGpus.CountedOnceIff`; input:
  `FarmGpus.TwiceNamedCountsTwice`).
- A host id that a machine asks for may repeat one that was given before: at its turn
  (`HostCollisions.HostsDifferUnlessRepeated`), or told from the requests alone
  (`HostCollisions.HostsDifferIff`; input: `HostIds.PresetCanCollide`).
- A handler without a name is reached by one route and listed under another, and what is under an empty
  prefix at the top is listed without its dot (`Routes.ReachedIffListed`, from the names on either side;
  inputs: `Routes.UnnamedIsListedWrongly`, `Routes.EmptyPrefixIsListedWrongly`).

Placing disks in the given order, which is all the program promises, can refuse disks that would fit
(`StoragePools.NoCanStillBePlaced`), though not when each is a multiple of the later ones
(`StoragePools.NestedFitIff`) nor when what is left of one pool could hold them all
(`StoragePools.OnePoolIsEnough`). Beside its hash the program compares workload names. In the model a hash
holds the names, so that comparison changes nothing; `Versions.SkippedIsRightIff` says when it would be
enough for a hash without them, and `Versions.SwapIsSkipped` shows that it is not always.

What the proofs assume of callers, each stated in a `requires`: a network's nodes are distinct and its
range is a /16 other than 100.64.0.0/16; stored subnets lie in the range on distinct third octets; no
user subnet is stored while access is off; a preset public node is not one of the network's hidden
nodes; a supplied public node is outside the network or the network has an IPv4 node; all secrets of a
network differ; the bot's nodes have distinct ids other than 0; the subnets of a Kubernetes cluster are wider than
one address.

## Model

| member | source | states |
|---|---|---|
| Subnets.NextFree | grid-client/workloads/network.go:493-501 | the result is the lowest octet from the start up to 254 that is not used; there is none exactly when all of them are used |
| Subnets.FillSucceedsIff | grid-client/workloads/network.go:395-404 | serving the nodes succeeds exactly when those without a subnet are no more than the octets of 2..254 still free |
| Subnets.FillExtends | grid-client/workloads/network.go:395-405 | serving keeps every subnet there was and gives each other node one on a free octet that no other new node has |
| Subnets.AssignSucceedsIff | grid-client/workloads/network.go:371-407 | a call fails exactly when it needs more octets, one per unserved node and one for a user without a subnet, than remain free |
| Subnets.AssignServes | grid-client/workloads/network.go:371-407 | a successful call serves exactly the given nodes; who had a subnet keeps it, and everyone else, the user included, gets a /24 of the range on a free octet of 2..254 of their own |
| Subnets.NewSubnets | grid-client/workloads/network.go:393-405 | a subnet newly given is a /24 inside the range with a third octet of 2..254; its fourth octet is the range's third for a node and its fourth for the user |
| Subnets.AssignFails | grid-client/workloads/network.go:383-401 | a failed call leaves all node subnets and changes at most the user's |
| Subnets.AssignKeepsSound | grid-client/workloads/network.go:371-407 | a successful call keeps all subnets inside the range on pairwise distinct third octets |
| Subnets.AssignSeparateIff | grid-client/workloads/network.go:381-401 | after one call on a sound network the subnets are separate, and the network sound, exactly when octets suffice, or no user octet is picked, or the one picked is not that of a stored subnet, all of which can be told before the call |
| Subnets.FailedCallCanCollide | grid-client/workloads/network.go:381-401 | a run in which a failed call for 253 nodes and a later call for one node end with node and user on the same octet |
| Subnets.RunSoundIff | grid-client/workloads/network.go:192-228 | over any run of requests that change range, access and nodes, succeed or fail, with contracts vanishing in between, all networks are sound exactly when every request met the condition of one call at its turn |
| Subnets.RunServes | grid-client/workloads/network.go:371-407 | after any request of a run for which octets suffice exactly its nodes have a subnet |
| Subnets.SurvivorsKeepSubnet | grid-client/workloads/network.go:374-380 | a node that every request of a run asks for, and whose contract lives, keeps the subnet it began with, whichever requests fail |
| Subnets.UserKeepsSubnet | grid-client/workloads/network.go:204-227 | the stored subnet of the user survives every request of a run that leaves access on and whose range contains it, whichever requests fail |
| Subnets.VanishedIsServedAnew | grid-client/workloads/network.go:193-211 | a node whose contract is gone, or whose subnet is outside the range now, has lost its subnet and is given one on an octet that nothing kept uses |
| Mesh.AllowedIsNextHop | grid-client/workloads/network.go:691-739 | among the neighbours of a party, the one whose allowed addresses cover an address is exactly the next hop towards its owner |
| Mesh.LinksMatch | grid-client/workloads/network.go:691-778 | the peers meant for a party are one for each of its neighbours, with that neighbour's key, endpoint and allowed addresses |
| Mesh.WrittenIs | grid-client/workloads/network.go:635-778 | what is written for a party, its workload or the user's configuration, has its own private key, its own links, its own subnet and its own addresses |
| Mesh.MeshDelivers | grid-client/workloads/network.go:635-778 | following what each party is told, key included, any address of one member reaches any address of another in at most two hops, each sender having exactly one matching peer and each receiver accepting the source by the sender's own key, the middle hop being the public node |
| Mesh.MeshPathIsForced | grid-client/workloads/network.go:635-778 | whatever path the configurations carry a packet along is the direct one or the one through the public node |
| Mesh.ExampleDelivers | grid-client/workloads/network.go:635-778 | a concrete network of a user, a public and a hidden node meets every assumption, and the user reaches the hidden node through the public one |
| Mesh.LinksComeUpIff | grid-client/workloads/network.go:662-764 | every link can be brought up by one of its ends exactly when the public node's entry names the host it answered with, an IPv4 address or an IPv6 address in brackets; an entry counts as dialled only on the port its node listens on |
| Mesh.HiddenPublicIsCutOff | grid-client/workloads/network.go:754-766 | a public node that is hidden itself has only an entry for its own key and reaches nobody |
| Mesh.UserIsKnown | grid-client/workloads/network.go:652-732 | with access on, exactly one entry of the public node has the key of the private key the user is told, it has no endpoint, and it allows exactly the user's subnet and the address the user is told; the user's entry is for the public node's key |
| Mesh.PeerSubnets | grid-client/workloads/network.go:691-766 | an entry of an accessible node has the subnet of the party whose key it has, the one entry of a hidden node has that node's own |
| Generation.ChoiceIsGood | grid-client/workloads/network.go:592-610 | whichever of the branches picks the public node, hidden and accessible nodes stay disjoint and without repeats and cover the network, and a network that needs a public node has it among the accessible ones |
| Generation.ChoiceFailsIff | grid-client/workloads/network.go:591-606 | there is no public node exactly when one is needed, none is preset, no node has IPv4, and none was supplied that answered |
| Generation.PublicIs | grid-client/workloads/network.go:592-610 | a preset public node stays; failing that the last node with IPv4 is taken, and failing that the supplied one |
| Generation.AccessibleIs | grid-client/workloads/network.go:592-610 | at most the public node itself is added to the accessible nodes, and a preset or own one that is among them changes neither nodes nor hosts |
| Generation.NetIsWellFormed | grid-client/workloads/network.go:569-619 | what the choice and the allocation produce meets everything delivery needs |
| Generation.PublicHostIff | grid-client/workloads/network.go:592-610 | the entry for the public node names the host that node answered with, in a form that can be dialled, exactly when it is one of the network's nodes, or was supplied and answered with IPv4 |
| Generation.OtherHostsDial | grid-client/workloads/network.go:574-590 | the entry for every other accessible node names the host that node answered with, in a form that can be dialled |
| ZNets.NextFreeIP | grid-client/workloads/network.go:493-501 | the loop finds the lowest free octet or reports that there is none |
| ZNets.ZNet.InvalidateBrokenAttributes | grid-client/workloads/network.go:192-228 | nodes without a live contract lose contract, subnet, key and port, subnets outside the range go, and the user's goes with access; the public node is forgotten when it is down; a contract that cannot be read ends the call after some of the vanished ones, with nothing else changed |
| ZNets.ZNet.AssignNodesIPs | grid-client/workloads/network.go:371-407 | the loops over maps in any order do to the network what the allocation function says, on success and on failure |
| ZNets.ZNet.AssignNodesWGKey | grid-client/workloads/network.go:439-457 | each listed node without a key gets one and no key is replaced |
| ZNets.ZNet.AssignPorts | grid-client/workloads/network.go:623-633 | each listed node gets a port of 1024..32767 not used on it so far, which is then recorded as used |
| ZNets.ZNet.SettlePublicNode | grid-client/workloads/network.go:592-610 | preset, own IPv4 node, supplied node, in this order; on failure nothing changes |
| ZNets.ZNet.GenerateDeployments | grid-client/workloads/network.go:564-780 | the object's fields, the user's configuration among them, and the workloads written by its loops are those of the generation function, also on every error; what they mean to each other is proved about these outputs |
| ZNets.ZNet.ReadNodesConfig | grid-client/workloads/network.go:801-841 | keys, ports and subnets are those of the workloads read, and access is on exactly when some peer has no endpoint; data that does not parse changes nothing |
| ZNets.FindClosedPeer | grid-client/workloads/network.go:826-830 | whether some peer of the workload has no endpoint |
| Networks.GeneratedIsWellFormed | grid-client/workloads/network.go:564-780 | a successful generation from sound addressing has everything delivery needs, for every branch and input |
| Networks.GeneratedNetworkDelivers | grid-client/workloads/network.go:564-780 | for the workloads returned and the user's configuration stored by any successful generation, and every ordered pair of parties: any address of the one reaches any address of the other, each using the key it is told, on one forced path that is direct where there is an entry and crosses the public node otherwise |
| Networks.GeneratedLinksComeUpIff | grid-client/workloads/network.go:592-610 | when a public node is needed, the links of what is generated can all come up exactly when a preset public node is in the network, or with none preset some node has IPv4 or the supplied node answered with IPv4 |
| Networks.GeneratedForAll | grid-client/workloads/network.go:564-780 | there is a configuration for every node asked for, for the user exactly with access on, and for nobody else but the public node |
| Networks.GeneratedUserIsKnown | grid-client/workloads/network.go:652-732 | with access on, the one entry of the public node with the user's key allows exactly the subnet and the address of the user's configuration, and the user's entry is for the public node's key |
| Networks.GeneratedKeys | grid-client/workloads/network.go:439-457 | every node, and the user, is told the key it had, or the one generated for it if it had none, and that key is stored |
| Networks.GeneratedKeysDiffer | grid-client/workloads/network.go:439-457 | all parties are told different keys when stored and generated keys differ |
| Networks.GeneratedPorts | grid-client/workloads/network.go:623-633 | the port a node listens on is the one drawn for it, which was free on the node; it is stored, and in use there afterwards |
| Networks.GeneratedMetadata | grid-client/workloads/network.go:673-689 | every workload names the network's range, its node's subnet as stored and as it was before if there was one, and the user's subnet, key and access node as in the user's configuration, whose address is 100.64 and the second and third octet of that subnet |
| Networks.GeneratedPeerSubnets | grid-client/workloads/network.go:691-766 | an entry of an accessible node has the subnet of the party whose key it has, the one entry of a hidden node has that node's own |
| Networks.GenerationFailsIff | grid-client/workloads/network.go:574-614 | a generation fails exactly when a node did not answer, or a public node is needed and there is none, or more octets are needed than are free, with the error of the first of these |
| Networks.PresetOutsiderHasNoHost | grid-client/workloads/network.go:593-597 | a request with a preset public node outside the network that is generated without complaint and whose links cannot all come up |
| Networks.SuppliedV6HasNoHost | grid-client/workloads/network.go:606-609 | a request whose supplied public node answers with IPv6, generated with that address unbracketed, so that its links cannot all come up |
| Networks.ClosedPeerIff | grid-client/workloads/network.go:717-738 | a workload has a peer without an endpoint exactly when it is the accessible public node's and there is a user or a hidden node |
| Networks.ReadBack | grid-client/workloads/network.go:801-841 | reading back recovers every node's key, port and subnet; access comes back true exactly when it was on or some node is hidden behind an accessible public node |
| Versions.UpdateVersions | grid-client/deployer/deployer.go:515-554 | a workload of an update carries the new deployment version exactly when its name is new or its content changed, and is otherwise the old workload, version and all |
| Versions.UpdateWellVersioned | grid-client/deployer/deployer.go:530-554 | no workload of an update is newer than the deployment, whose version goes up by one |
| Versions.UpdateIsReplacement | grid-client/zos/workload.go:13-19 | the node's rule of taking over equal versions, leaving others and deleting what is missing has the same effect as replacing everything by the requested workloads |
| Versions.SameRunsTheSame | grid-client/deployer/deployer.go:198-212 | when the hashes agree and nothing is sent, the node already runs what is wanted |
| Versions.SkippedIsRightIff | grid-client/deployer/deployer.go:198-214 | for a hash that does not hold names: skipping an update because hashes and name sets agree is right exactly when no name has moved to a place that held another content |
| Versions.SwapIsSkipped | grid-client/deployer/deployer.go:198-214 | two workloads that swap their names would be skipped and keep running as they were |
| Versions.RequestsTakeEffect | grid-client/deployer/deployer.go:185-256 | over any run of updates, sent or skipped, the node runs what was requested last and no workload version exceeds the deployment's |
| Versions.GetWorkloadHashes | grid-client/deployer/deployment_utils.go:39-53 | each name maps to the hash of the last workload of that name |
| Versions.SameWorkloadsNames | grid-client/deployer/deployment_utils.go:56-72 | true exactly when the lists are of equal length and every name of the second is one of the first |
| Versions.Draft.MatchOldVersions | grid-client/deployer/deployer.go:516-527 | the prepared deployment takes over the old versions by name, 0 for new names, and nothing else changes |
| Versions.Draft.AssignVersions | grid-client/deployer/deployer.go:530-554 | the new version goes to exactly the new and changed workloads, and the versions to wait for are those the deployment then has |
| Deployer.AccountedCompose | grid-client/deployer/deployer.go:86-99 | a call and the rollback after it together account for every contract |
| Deployer.AllYesIff | grid-client/deployer/deployer.go:104-259 | the count of refused calls that the results are told by says exactly whether every call of a stretch was answered with yes |
| Deployer.NewComesUpIff | grid-client/deployer/deployer.go:175-181 | waiting for a created deployment can end well exactly when none of its workloads carries a version other than 0 |
| Deployer.RevertRollsBack | grid-client/deployer/deployer.go:89-98 | when the rollback ends well the nodes are the old ones running the old workloads, and chain and node agree on a contract again unless the node had refused its update |
| Deployer.RefusedHashStays | grid-client/deployer/deployer.go:239-248 | a refused update after which the rollback has nothing to send, so chain and node stay apart |
| Deployer.UpdatedIsNotRecreated | grid-client/deployer/deployer.go:175-181 | a deployment updated once for which the wait after its recreation cannot end well |
| Deployer.Deployer.CreateOne | grid-client/deployer/deployer.go:127-182 | a creation ends with the contract running the deployment, or with nothing left, or with one orphan; it ends well exactly when all its six calls are answered, no name is repeated and no workload was ever updated, and leaves an orphan only after two refused calls |
| Deployer.Deployer.UpdateOne | grid-client/deployer/deployer.go:186-255 | an update sends nothing when nothing changed; otherwise chain and node both get it, or neither, or the chain alone when the node refuses; it ends well exactly when all calls are answered, the node has the deployment and no name is repeated |
| Deployer.Deployer.DeleteStale | grid-client/deployer/deployer.go:115-124 | contracts of unwanted nodes are cancelled in any order; the map always lists exactly those still live, and all of them are gone exactly when every call was answered |
| Deployer.Deployer.CreateMissing | grid-client/deployer/deployer.go:126-183 | the missing nodes are created in any order, and the map lists exactly what is live at every way out |
| Deployer.Deployer.UpdateExisting | grid-client/deployer/deployer.go:185-256 | the remaining nodes are updated in any order; on success every one runs what is wanted, on failure the state of each contract is known |
| Deployer.Deployer.Reconcile | grid-client/deployer/deployer.go:104-259 | on every exit the map is exactly the live contracts out of the old ones and those of this call, but for one orphan; it ends well exactly when every call is answered and the request is feasible, and then the nodes are the wanted ones running the wanted workloads |
| Deployer.Deployer.GetDeployments | grid-client/deployer/deployer.go:274-292 | what is read is what all the nodes hold; reading succeeds exactly when the two calls for each of them are answered and each holds its deployment |
| Deployer.Deployer.Revert | grid-client/deployer/deployer.go:89-99 | going back accounts for every contract of both calls; it ends well exactly when everything answers and the nodes whose contract is gone ran deployments that were never updated, and then restores nodes and workloads |
| Deployer.Deployer.Deploy | grid-client/deployer/deployer.go:71-102 | the report is known from the answers: rejected exactly when the old deployments are read and the check refuses; else deployed exactly when the first pass is answered throughout and the request is feasible; after a failed pass left as it is without revertOnFailure, without a snapshot exactly when the old deployments could not be read, and otherwise rolled back exactly when the second pass is answered and what is gone can be created again; success leaves exactly the wanted nodes and workloads, a rollback the old ones, and no contract is lost on any way out |
| BatchDeploy.NodeClientPool.GetNodeClient | grid-client/node/client_pool.go:35-49 | a client once obtained is found again without a call, and never replaced |
| BatchDeploy.LoadClients | grid-client/deployer/deployer.go:379-384 | the batch goes on only with a cached client for every node of it, also one without deployments |
| BatchDeploy.Prepare | grid-client/deployer/deployer.go:386-435 | in any order of the goroutines the batch fails exactly when some preparation fails, and what is collected is exactly the jobs that were prepared |
| BatchDeploy.JobsHaveAll | grid-client/deployer/deployer.go:378-424 | every deployment of the batch is prepared once, under its node and with the solution provider listed at its place if there is one |
| BatchDeploy.CollectedBelongTogether | grid-client/deployer/deployer.go:385-437 | in every order of the goroutines the contract data and the deployment at one index belong to the same job, and no job is there twice |
| BatchDeploy.StepKeepsInv | grid-client/deployer/deployer.go:463-496 | no step reports a contract twice or on both sides, and a cached client cannot fail to be found |
| BatchDeploy.RunKeepsInv | grid-client/deployer/deployer.go:453-498 | the same over every interleaving |
| BatchDeploy.HasIdIffUp | grid-client/deployer/deployer.go:453-498 | a deployment gets its contract id exactly when the wait for it ends well |
| BatchDeploy.GroupByNode | grid-client/deployer/deployer.go:500-503 | the result has the collected deployments with their contract ids under their nodes, in order |
| BatchDeploy.GroupedAll | grid-client/deployer/deployer.go:500-503 | under each node every deployment is returned as often as it was collected for that node |
| BatchDeploy.EveryContractOnOneSide | grid-client/deployer/deployer.go:453-512 | under every interleaving each created contract is the id of exactly one returned deployment, the one collected with it and under its node, or is passed to the batch cancel once, never both; it is returned exactly when the wait for it ended well, and nothing else is passed to the cancel |
| BatchDeploy.BatchLosesNothing | grid-client/deployer/deployer.go:368-513 | from a batch with cached clients, any schedule of its goroutines, any contracts the chain makes and any run of the senders: each contract is the id of the one returned deployment whose job its data was made from, under that job's node, or is cancelled |
| BatchDeploy.DeployBatch | grid-client/deployer/deployer.go:368-513 | the whole call, loading clients, preparing, creating, sending and grouping: it comes back with nothing exactly when a client cannot be had, a preparation fails or the whole creation does, and then made no contract; else every prepared deployment is returned under its node, entry i of the data is of job slots[i], each prepared job being there once, and contract i is the id of that job's returned deployment, or cancelled, the latter exactly when the node refused it or it did not come up |
| BatchDeploy.LookupFailureLosesContract | grid-client/deployer/deployer.go:465-473 | without the cached client there is a run after which a created contract is on neither side |
| FarmTypes.IndexOf | farmerbot/internal/state.go:216-224 | the first node with the id, or that there is none |
| FarmState.PowerOffIsSafe | farmerbot/internal/power.go:43-120 | whatever the chain answers, a power-off leaves a node on and takes down only a node that met every guard, also when it failed on the chain |
| FarmState.PowerOnWakes | farmerbot/internal/power.go:13-40 | a power-on succeeds exactly when the node is awake already or the chain takes it; it calls the chain exactly for a node that is not, which is then waking up and counts as awake from now on; otherwise nothing changes |
| FarmState.MayPowerOffIff | farmerbot/internal/power.go:57-87 | the guards, one by one: not kept on, no public configuration, no rent, no other contract, no running claim, half an hour in its power state, nothing used beyond the system's share |
| FarmState.PowerOffTakesDown | farmerbot/internal/power.go:43-120 | a power-off calls the chain exactly for an awake node that meets every guard while two nodes are on; it goes down exactly when the chain takes that, or does not and says it is down, which counts as a failure |
| FarmState.PowerOffKeepsTheRest | farmerbot/internal/power.go:43-120 | a power-off changes nothing but the power state of the one node |
| FarmState.PowerOnKeepsTheRest | farmerbot/internal/power.go:13-40 | a power-on changes nothing but the power state of the one node |
| FarmState.PowerOnKeepsOn | farmerbot/internal/power.go:13-40 | a power-on takes no node off |
| FarmState.ClaimedIsNotPoweredOff | farmerbot/internal/power.go:66-68 | for a node with a running claim nothing is sent and nothing changes |
| FarmState.DeleteUnique | farmerbot/internal/state.go:234-244 | exactly the node with the id goes |
| FarmPower.MeetDemandIff | farmerbot/internal/power.go:148-165 | once the remaining capacity meets the rounded-up demand, the use is at most half way between threshold and total exactly when it is within the total |
| FarmPower.DemandIsLeast | farmerbot/internal/power.go:148-165 | the demand is the least whole amount whose removal brings the use back to the threshold |
| FarmPower.AllMeetDemandIff | farmerbot/internal/power.go:312-327 | the same for all four resources at once |
| FarmPower.NextIsExact | farmerbot/internal/power.go:275-286 | the candidate taken next is still counted, so subtracting it gives the sums over the others, one of which is on |
| FarmPower.ShrinkIsExact | farmerbot/internal/power.go:264-308 | after any number of candidates, with failed power-offs taken back, the running amounts are the sums over the nodes not taken out and the count of nodes left is exact |
| FarmPower.CountedIff | farmerbot/internal/power.go:295-306 | a node put to sleep by the loop is still among its running amounts exactly when its power-off was rejected by the chain and yet recorded; a node that stayed on and is missing from them was passed over without a power-off |
| FarmPower.TooLowNeverClamps | farmerbot/internal/power.go:269-292 | no subtraction of the loop clamps, a node that is on stays counted, and with positive node totals the thresholds never divide by zero |
| FarmPower.TooLowIsHalfSafeIff | farmerbot/internal/power.go:292-296 | every power-off issued leaves 200 used <= (100 + threshold) total in each resource exactly when the running use is within the running totals |
| FarmPower.NoOveruseIsHalfSafe | farmerbot/internal/power.go:264-296 | if no node that is on or waking is used beyond its total, every power-off issued leaves the nodes still counted at 200 used <= (100 + threshold) total in each resource |
| FarmMargins.StayingOnIsHalfSafe | farmerbot/internal/power.go:264-308 | if moreover the idle nodes meet that bound themselves and no power-off is rejected and yet recorded, and any node is put to sleep, the nodes that stay on meet it together |
| FarmMargins.RecordedIsStillCounted | farmerbot/internal/power.go:295-306 | three nodes without overuse, of which a rejected and recorded power-off and the next one leave on only the one with 95 used of 100 |
| FarmMargins.OverusePasses | farmerbot/internal/power.go:123-146 | a round on two nodes, 40 used of 10 and an idle one, that finds no demand and then puts the idle node to sleep, which is not half-way safe |
| FarmPower.TooLowIsSafe | farmerbot/internal/power.go:245-310 | the low-use branch leaves a node on and takes down only nodes that met every guard |
| FarmPower.SelectMeetsIff | farmerbot/internal/power.go:183-226 | the selection meets a demand exactly when, for each demanded resource, some node that is off covers all of it alone |
| FarmPower.ManageKeepsOneOn | farmerbot/internal/power.go:123-146 | a management round that starts with a node on ends with one on; what it takes down was on and met every guard, each spelled out, and only when there was no demand |
| FarmPower.SumsRemove | farmerbot/internal/power.go:167-181 | taking a node out of the sums takes out its total and its use, or all of its total if it is rented |
| FarmRounds.PowerOnAllIs | farmerbot/internal/power.go:228-243 | of the selected nodes exactly those that are not awake and that the chain turns on are waking up since now, and nothing else changes |
| FarmRounds.DemandIsWoken | farmerbot/internal/power.go:123-243 | a round with a demand that single nodes can meet, and a chain that turns them on: for each demanded resource some node that was off is waking up afterwards and has that much of it |
| FarmRounds.OnlyNeededAreWoken | farmerbot/internal/power.go:123-243 | whatever the chain answers, a round with a demand changes only nodes that were off, were turned on, and have all that is demanded of some resource; it fails exactly when the demand cannot be met, and then changes nothing |
| FarmRounds.FarmSleeps | farmerbot/internal/power.go:245-310 | a round without demand, with a chain that takes every power-off and room left all the way: the candidates go down in their order, all of them or all that can go while one node stays on |
| FarmRounds.IdleFarmSleeps | farmerbot/internal/power.go:123-310 | a farm of which nothing is used keeps as many nodes on as are no candidates, and at least one |
| FarmFind.FindIs | farmerbot/internal/find_node.go:31-133 | a find changes nothing, or puts the claim on a candidate of the best power state and changes nothing else, not even that node's power state |
| FarmFind.SuitsIff | farmerbot/internal/find_node.go:42-90 | a candidate is a node that offers what is asked for, filter by filter |
| FarmFind.PickIsMostAwake | farmerbot/internal/find_node.go:92-102 | the node picked is on if any candidate is on, else waking up if any is, else off if any is, and shutting down only if all candidates are |
| FarmFind.FindSucceedsIff | farmerbot/internal/find_node.go:31-134 | a find succeeds exactly when the public IPs suffice, some node offers what is asked for, and the node picked is awake or the chain turns it on |
| FarmFind.FoundFits | farmerbot/internal/find_node.go:42-134 | the node found offers what is asked for, no candidate is more awake, and it holds the claim for half an hour: what was asked for, or all of the node for a dedicated or GPU request |
| FarmFind.ClaimWithinIff | farmerbot/internal/types.go:203-218 | a claim on a candidate stays within its totals exactly when the request is ordinary or the node had a whole total to spare |
| FarmFind.OrdinaryFindsStayWithin | farmerbot/internal/find_node.go:85-112 | any run of ordinary finds keeps every node's use within its totals, the CPU within the over-provisioned one |
| FarmFind.FindsKeepPublicIPsIff | farmerbot/internal/find_node.go:31-40 | a run of finds keeps the claimed public IPs within the farm's exactly when no request that finds a node makes the 64-bit sum wrap around at its turn |
| FarmFind.FindsKeepPublicIPs | farmerbot/internal/find_node.go:31-40 | any run of requests for fewer than 2^64 less the farm's public IPs keeps within them |
| FarmFind.HugeRequestIsMet | farmerbot/internal/find_node.go:31-40 | with one public IP of one in use, a request for 2^64 - 1 more is met |
| FarmRuns.UpdateKeepsClaim | farmerbot/internal/types.go:162-171 | a refresh leaves used resources under a claim alone, wherever it stops |
| FarmRuns.UpdateIsCurrent | farmerbot/internal/types.go:74-186 | a refresh that goes through shows what chain and node answered, the power state in all four cases and when it changed, but for resources under a claim and for a node that sleeps and may be skipped |
| FarmRuns.WakeUpsWithinLimit | farmerbot/internal/farmerbot.go:270-324 | a round makes no more wake-up calls than the configured limit |
| FarmRuns.PrioritiseIs | farmerbot/internal/farmerbot.go:336-355 | a round visits every node of the farm once, those with priority first |
| FarmRuns.SweepIs | farmerbot/internal/farmerbot.go:261-266 | no node of the farm is dropped, none is added, ids stay distinct |
| FarmRuns.SweepCleanIff | farmerbot/internal/farmerbot.go:261-266 | all vanished nodes are dropped exactly when no two of them are neighbours in the list, for both ways the library treats the freed place |
| FarmRuns.NeighbourStays | farmerbot/internal/farmerbot.go:261-266 | lists of vanished nodes of which the round keeps the second |
| FarmVisits.AddOrUpdateIs | farmerbot/internal/farmerbot.go:357-386 | a known node is replaced by its refreshed self, even if the refresh failed half way, and an unknown one is added if it can be read |
| FarmVisits.NewNodeShows | farmerbot/internal/state.go:98-214 | a node can be added exactly when every answer is there, its own ones not being asked for if it sleeps and may be skipped, and then shows what was answered |
| FarmVisits.ShouldWakeIff | farmerbot/internal/farmerbot.go:388-442 | a node is woken exactly when it is off, the limit is not reached and the proxy answers, and it was last seen more than a day ago, or has kept its power state for half an hour and either today's wake-up time has come since it was last awake or the draw falls on it, ten times a month at most |
| FarmVisits.VisitIs | farmerbot/internal/farmerbot.go:284-324 | a visit to a known node stores its refreshed self, woken if there is a reason and the chain goes along, and touches no other node |
| FarmVisits.ForcedWakeUpShowsIff | farmerbot/internal/farmerbot.go:295-324 | a node that must not sleep and that the chain turned on shows as waking up exactly when what was read before is not written back over it: unless it is the round of the monthly reset, or a wake-up follows that the chain refuses |
| FarmVisits.VisitsLeaveOthers | farmerbot/internal/farmerbot.go:270-324 | the visits of a round leave every other node, and every node that is excluded or not included, where and as it is |
| FarmVisits.RoundRefreshes | farmerbot/internal/farmerbot.go:270-324 | a round leaves every known node in its hands refreshed by its own answers, and woken if there is a reason |
| FarmVisits.IncludeIs | farmerbot/internal/farmerbot.go:166-190 | the operator brings a node in exactly when it is not there, not excluded, listed as included if nothing is excluded, and can be read |
| FarmVisits.OperatorTakesOver | farmerbot/internal/farmerbot.go:192-232 | a node the operator switched is no longer the bot's and the others stay; a call that is refused or fails leaves every node in the list |
| FarmRuns.StepKeepsIds | farmerbot/internal/farmerbot.go:251-334 | every find, operator call and round keeps the ids of the list distinct |
| FarmRuns.StepKeepsAbsent | farmerbot/internal/farmerbot.go:155-231 | no step brings in a node that the operator does not include and the farm does not have, so the id 0 stays out of the list |
| FarmRuns.StepKeepsClaim | farmerbot/internal/farmerbot.go:251-334 | no step before its timeout breaks a claim or sends its node a power-off, unless the step drops the node |
| FarmRuns.RunKeepsClaim | farmerbot/internal/farmerbot.go:155-231 | the same over any run of steps |
| FarmRuns.FoundNodeStaysClaimed | farmerbot/internal/find_node.go:101-133 | from a find until half an hour later, through any steps that do not drop the node, its use stays at least what it was plus the claim, and the bot sends it no power-off |
| FarmerBots.CalculateUsage | farmerbot/internal/power.go:167-181 | the sums of use and total, a rented node counting as used up |
| FarmGpus.FilterByVendors | farmerbot/internal/find_node.go:136-145 | every GPU is in the result as often as it was there times the filters that are its vendor, in order |
| FarmGpus.FilterByDevices | farmerbot/internal/find_node.go:147-156 | every GPU is in the result as often as it was there times the filters that are its device, in order |
| FarmGpus.CountedOnceIff | farmerbot/internal/find_node.go:44-57 | a request counts at least the GPUs it names, and exactly those when and only when none is named twice by its filters |
| FarmGpus.TwiceNamedCountsTwice | farmerbot/internal/find_node.go:44-57 | one GPU meets a request for two whose filters name its vendor twice |
| FarmerBots.IsSuitable | farmerbot/internal/find_node.go:43-90 | a node passes the loop's filters exactly when it is a candidate of the request |
| FarmerBots.AddPriority | farmerbot/internal/farmerbot.go:336-355 | the loops compute the order whose properties are proved |
| FarmerBots.SettleThresholds | farmerbot/internal/state.go:318-376 | thresholds outside 1..100 are refused, 0 means 80, the rest is brought between 50 and 80 |
| FarmerBots.ClampedIsNearest | farmerbot/internal/state.go:318-376 | zero stands for 80, any other threshold is brought to the nearest one from 50 to 80 |
| FarmerBots.FarmerBot.GetNode | farmerbot/internal/state.go:216-224 | the first node with the id, or one without any field set |
| FarmerBots.FarmerBot.RemoveNode | farmerbot/internal/state.go:234-244 | the first node with the id goes, the order of the others stays |
| FarmerBots.FarmerBot.WriteNode | farmerbot/internal/state.go:247-259 | the first node with the id is overwritten, or the call fails and changes nothing |
| FarmerBots.FarmerBot.FilterPower | farmerbot/internal/state.go:262-270 | the nodes in the given power states, in order |
| FarmerBots.FarmerBot.FilterAllowedToShutDown | farmerbot/internal/state.go:273-281 | the nodes that may be shut down, in order |
| FarmerBots.FarmerBot.SwitchOn | farmerbot/internal/power.go:13-40 | the list after a power-on and whether it succeeded, for every answer of the chain; what that is worth is FarmState.PowerOnWakes |
| FarmerBots.FarmerBot.SwitchOff | farmerbot/internal/power.go:43-120 | the list after a power-off, and whether it was sent, for every answer of the chain |
| FarmerBots.FarmerBot.SelectNodesToPowerOn | farmerbot/internal/power.go:183-226 | the loop meets the demand exactly when the selection function does, and then selects the same nodes |
| FarmerBots.FarmerBot.UsageTooHigh | farmerbot/internal/power.go:228-243 | the selected nodes are powered on one after another; a failed selection changes nothing |
| FarmerBots.FarmerBot.UsageTooLow | farmerbot/internal/power.go:245-310 | the loop and its running amounts are those the safety lemmas speak of, at every way out of the loop |
| FarmerBots.FarmerBot.ManagePower | farmerbot/internal/power.go:123-146 | one round of power management is the function whose safety is proved |
| FarmerBots.FarmerBot.PossibleNodes | farmerbot/internal/find_node.go:42-90 | exactly the nodes that satisfy every filter of the request |
| FarmerBots.FarmerBot.FindNode | farmerbot/internal/find_node.go:14-134 | the node found is a candidate that no other precedes by power state, and the list afterwards is the find function's; in terms of power states it is FarmFind.FoundFits |
| FarmerBots.FarmerBot.RemoveVanished | farmerbot/internal/farmerbot.go:261-266 | ranging over the list it shrinks drops exactly what the sweep function says |
| FarmerBots.FarmerBot.AddOrUpdateNode | farmerbot/internal/farmerbot.go:357-386 | a known node is refreshed as far as the answers go, an unknown one added if all answer |
| FarmerBots.FarmerBot.VisitNode | farmerbot/internal/farmerbot.go:270-324 | refresh, forced power-on, monthly reset and wake-up, with the stale copy written back |
| FarmerBots.FarmerBot.IterateOnNodes | farmerbot/internal/farmerbot.go:251-334 | a whole round is the step the claim theorems speak of, power-offs sent included |
| FarmerBots.FarmerBot.IncludeNode | farmerbot/internal/farmerbot.go:166-190 | the operator's include adds a node unless it is there, is excluded, or cannot be read |
| FarmerBots.FarmerBot.OperatorSwitchesOff | farmerbot/internal/farmerbot.go:192-211 | the operator's power-off, which drops the node from the list when it succeeds |
| FarmerBots.FarmerBot.OperatorSwitchesOn | farmerbot/internal/farmerbot.go:213-232 | the operator's power-on, which drops the node from the list when it succeeds |
| FarmerBots.FarmerBot.Validate | farmerbot/internal/state.go:283-389 | the bot runs exactly with a farm and two nodes or more that all have ids, twins and positive totals, and thresholds of 0 or 1..100, which are percentages afterwards |
| StoragePools.FitsMonotone | grid-client/deployer/node_filter.go:270-280 | pools that are emptier by the program's difference, size by size, take whatever the others take |
| StoragePools.OfDeviceCounts | grid-client/deployer/node_filter.go:262-268 | the pools considered are those of the device, each as often as it was listed, and no other |
| StoragePools.AnotherPoolStillFits | grid-client/deployer/node_filter.go:257-282 | another pool never turns a yes into a no |
| StoragePools.MoreRoomStillFitsIff | grid-client/deployer/node_filter.go:270-280 | giving a pool more room, by size or by use, keeps every yes exactly when the pool was not used beyond its size, or still is, or the gain is 2^64 and more |
| StoragePools.OrderIsImmaterial | grid-client/deployer/node_filter.go:262-273 | the answer does not depend on the order of the pools |
| StoragePools.TiesAreImmaterial | grid-client/deployer/node_filter.go:271-279 | nor on which of several emptiest pools the unstable sort puts first |
| StoragePools.YesIsPlaceableIff | grid-client/deployer/node_filter.go:270-281 | after a yes the disks can be placed with no pool used beyond its size exactly when none was to begin with |
| StoragePools.OverusedTakesAll | grid-client/deployer/node_filter.go:270-280 | a pool used beyond its size gets a yes for any disks up to 2^64 less the excess |
| StoragePools.OverusedSaysYes | grid-client/deployer/node_filter.go:270-280 | a pool of 5 with 6 used that gets a yes for a disk it cannot hold, and a no once it is enlarged to 6 |
| StoragePools.NestedFitIff | grid-client/deployer/node_filter.go:257-282 | for disks each a multiple of the later ones, equal sizes among them, a placement within the sizes exists exactly when the answer is yes and no pool is used beyond its size |
| StoragePools.OnePoolIsEnough | grid-client/deployer/node_filter.go:270-281 | disks that together fit what is left of one pool always get a yes |
| StoragePools.NoCanStillBePlaced | grid-client/deployer/node_filter.go:270-280 | pools and disks for which the answer is no although a placement exists |
| StoragePools.HasEnoughStorage | grid-client/deployer/node_filter.go:257-282 | the loop that sorts and fills the pools of the device in place gives the answer of the placement function, no disks always fitting |
| HostIds.AutomaticIsNew | grid-client/workloads/vm.go:364-379 | across a whole batch an automatic address lies in the machine's subnet and has the lowest host id of 2..254 that does not count as in use on its network and node and was not given there before |
| HostIds.AutomaticFailsIff | grid-client/workloads/vm.go:367-372 | choosing fails exactly when all 253 host ids of the place are in use or given |
| HostIds.PresetFailsIff | grid-client/workloads/vm.go:345-361 | an address asked for is given unchanged, and refused exactly when it lies outside the subnet and its host id is not taken |
| HostIds.PresetCanCollide | grid-client/workloads/vm.go:350-354 | two machines that end with the same address |
| HostCollisions.HostsDifferUnlessRepeated | grid-client/workloads/vm.go:345-379 | over any batch the host ids given on each place differ exactly when no address asked for has, at its turn, one that was given there before |
| HostCollisions.HostsDifferIff | grid-client/deployer/deployment_deployer.go:297-352 | the same told from the requests alone: they differ exactly when nobody before asked for the same host id, and the machines before that ask for nothing have room below it among the ids not in use and not asked for |
| HostIds.UsedHostIds | grid-client/deployer/deployment_deployer.go:212-251 | the host ids of the listed addresses inside the subnet, and no others |
| HostIds.CalculateUsed | grid-client/deployer/deployment_deployer.go:253-295 | for each place that machines are wanted on, what counts as in use is the host ids of the addresses on the node that lie in its subnet, and nothing if the node fails to list them or has no subnet, which the call reports |
| HostIds.Assigner.AssignPrivateIP | grid-client/workloads/vm.go:333-380 | one assignment, the host ids taken included |
| HostIds.Assigner.ServeAll | grid-client/deployer/deployment_deployer.go:306-351 | the machines of all deployments are served in order by one run over shared host ids; those served have their address, the others keep what they had, and deployments without a subnet are left out |
| HostIds.FilledMachines | grid-client/deployer/deployment_deployer.go:306-351 | the machines of what goes on are the machines served, in their order, each with the address it was given, or the one it had if it was given none |
| HostIds.AssignPrivateIPs | grid-client/deployer/deployment_deployer.go:297-352 | the whole call, listing included: no automatic address is on its node already if every node on which one was chosen listed its own, as when the call reports no error; after a failed listing it goes on, and reports it |
| HostIds.AvoidsIff | grid-client/deployer/deployment_deployer.go:297-352 | the addresses on the nodes are avoided, whatever those that failed to list have, exactly when every node on which an address was chosen listed its own |
| HostIds.UnheardIsRepeated | grid-client/deployer/deployment_deployer.go:301-304 | a node that fails to list 10.1.2.2 has it given to a machine again |
| K8sIps.AllDifferIff | grid-client/deployer/k8s_deployer.go:456-477 | after a success every machine has an address in its subnet, those given there stay, the others have host ids of 2..254, and all addresses on a node differ exactly when those given in its subnet did |
| K8sIps.AssignFailsIff | grid-client/deployer/k8s_deployer.go:437-454 | an assignment fails exactly when the address is outside the subnet of its node and the node has no subnet or all 253 host ids on it |
| K8sIps.K8sCluster.GetUsedIPs | grid-client/deployer/k8s_deployer.go:415-435 | the host ids on each node, of master and workers, inside the subnet or not |
| K8sIps.K8sCluster.GetFreeIP | grid-client/deployer/k8s_deployer.go:437-454 | the lowest free host id, written into the stored subnet itself, or nothing changes |
| K8sIps.K8sCluster.AssignNodesIPs | grid-client/deployer/k8s_deployer.go:456-477 | master first, then the workers; on a failure those served before keep their new address |
| Routes.ReachedIff | rmb-sdk-go/rmb.go:39-73 | in any tree a route leads to a handler exactly when it is the handler's full name, or ends at a router in which nothing is one |
| Routes.FollowIsFirst | rmb-sdk-go/peer/router.go:114-148 | a route leads to the handler of the first router on its way that has one by the name of what is left of the route, and ends there, or where no prefix leads on |
| Routes.FullNameReaches | rmb-sdk-go/peer/router.go:114-148 | a handler is reached by its prefixes and name joined with dots, through the routers that hold it, unless a router above has a handler whose name is the rest of the route |
| Routes.ListedIff | rmb-sdk-go/rmb.go:107-122 | in any tree what is listed is the full names of handlers without the dots of empty prefixes in front |
| Routes.ReachedIffListed | rmb-sdk-go/rmb.go:107-122 | in any tree the routes that lead to a handler are those listed exactly when full names and bare prefixes of unnamed handlers are together the names shown |
| Routes.ReachedIffListedBare | rmb-sdk-go/rmb.go:107-122 | without an empty prefix at the top that is when every route that ends at an unnamed handler is also a full name |
| Routes.NamedIsReachedIffListed | rmb-sdk-go/rmb.go:107-122 | with every handler named, and no empty prefix at the top, a route leads to a handler exactly when it is listed |
| Routes.UnnamedIsListedWrongly | rmb-sdk-go/rmb.go:107-122 | a handler without a name is reached by a route that is not listed |
| Routes.EmptyPrefixIsListedWrongly | rmb-sdk-go/rmb.go:107-122 | under an empty prefix at the top what is listed is not reached, and the other way round |
| Routes.PassAppend | rmb-sdk-go/rmb.go:40-45 | running the middlewares of two routers is running one list after the other, stopping at the first error |
| Routes.PassIs | rmb-sdk-go/peer/router.go:114-120 | the middlewares run in their order, each on the context the one before made, and the error is that of the first that fails |
| Routes.Routers.SubRoute | rmb-sdk-go/peer/router.go:44-57 | the same prefix gives the same router, a new one a router of its own, a prefix with a dot none |
| Routes.Routers.WithHandler | rmb-sdk-go/peer/router.go:60-66 | a handler is registered unless one of that name is there, and no other router changes |
| Routes.Routers.Use | rmb-sdk-go/peer/router.go:69-71 | a middleware is added at the end for one router alone |
| Routes.Routers.Call | rmb-sdk-go/peer/router.go:114-148 | a call runs exactly the middlewares of the routers on its way, root to leaf, ends at the first error, and otherwise reaches the handler its route leads to in the context they made |
| Routes.Routers.GetTopics | rmb-sdk-go/rmb.go:107-122 | the list gets exactly the topics of the router and its sub-routers, in whatever order the maps are walked |
| WeightedChoice.ChoosesOnce | rmb-sdk-go/peer/weighted_rand.go:46-50 | a draw chooses one item only |
| WeightedChoice.DrawsPerItem | rmb-sdk-go/peer/weighted_rand.go:46-50 | exactly as many of the draws below the total choose an item as its weight says, so padding entries without weight are never chosen |
| WeightedChoice.WeightSlice.constructor | rmb-sdk-go/peer/weighted_rand.go:24-43 | the items are sorted by weight where they are, none is lost, and the totals are their running sums |
| WeightedChoice.WeightSlice.Choose | rmb-sdk-go/peer/weighted_rand.go:46-50 | the binary search finds the one item that the draw chooses |
| WeightedChoice.NewWeightSlice | rmb-sdk-go/peer/weighted_rand.go:24-43 | refused exactly without items |
| Sorting.SortBy | rmb-sdk-go/peer/weighted_rand.go:29-31 | an ordered permutation; the order of equals is left open |

## Left out

- Random keys and ports: the draws are inputs, and repeating a draw until it is free is not modelled; nor is the uniqueness of ports across the networks of one batch, whose used list is overwritten (grid-client/workloads/network.go:535-536).
- Addresses are four octets; the program's mix of 4- and 16-byte forms is not modelled.
- Secrets: all keys of a network are assumed distinct; key and endpoint text is kept as values, not parsed.
- Mycelium keys, network names, and the network metadata beyond the user's subnet, key and access node.
- ZNets.ZNet.ReadNodesConfig: assumes one network workload per deployment, where the program takes the last of several.
- ZNets.ZNet.AssignNodesWGKey: a key generator that fails half way, leaving the keys made so far, is not modelled.
- ZNets.ZNet.InvalidateBrokenAttributes: a public node whose client cannot be had counts as down; the program also clears it, and then calls the missing client.
- Subnets.RunSoundIff: every request of a run gets through the invalidation before it; one that ends there assigns nothing, and is not a step of the run.
- Hashes: a hash stands for the whole object it is taken of, names included; the library that computes it is not part of this model. Signatures and errors of hashing are calls that succeed or fail.
- Versions.Draft.MatchOldVersions: works on a copy of the caller's deployment, while the program overwrites the caller's workload list through the shared slice.
- Versions.Draft.AssignVersions: versions have no upper bound, so the wrap-around of 32-bit versions is not modelled.
- Deployer.Deployer.Deploy: waiting succeeds only if every expected workload is there in its version, or fails; progress, timeouts and workload states are not modelled, and validation before the call is one answer.
- BatchDeploy.DeployBatch: the batch is a list of jobs that come without a contract id; the batch cancel itself may fail on the chain, and only what it is given is modelled.
- Deployer.RevertRollsBack: whether a deployment that can come up does, is the answer to the wait.
- The farmer bot's remote calls may interleave with its rounds and release the lock before writing back (farmerbot/internal/power.go:37-39); each call is one step here, and the clock stands still within it.
- FarmFind.OrdinaryFindsStayWithin: capacities have no upper bound, so 64-bit overflow of their sums and of the conversion from gigabytes is not modelled; public IPs in use are counted without bound, and only the check of a find wraps around, which comes to the same.
- FarmPower.MeetDemandIff: ratios and thresholds are exact numbers, so float rounding is not modelled; without any total the demand is the value that converting not-a-number gives on common hardware.
- FarmerBots.FarmerBot.Validate: the start of the periodic wake-up, set to the current time when absent, is an input.
- FarmMargins.StayingOnIsHalfSafe: is sufficient only, like the condition it builds on.
- FarmPower.NoOveruseIsHalfSafe: is sufficient only; the exact condition is on the loop's running amounts, since which nodes are taken out depends on the chain's answers.
- FarmPower.TooLowIsHalfSafeIff: assumes positive totals, which are required when the bot starts but could be lost when a node reports zeros later.
- The odds of a random wake-up, the reading of the calendar, storage pools of bot nodes, reports and balances: inputs or absent.
- The bot's nodes are copied values in the program too, so refreshing and claiming are functions on a node, and only the list is changed in place.
- HostIds.AssignPrivateIPs: returns new deployments where the program writes through pointers, so a deployment listed twice is not modelled; the goroutines of the listing are one loop that may ask again.
- Routes.Routers.Call: a handler that panics, and the result of a handler, are not modelled; the two routers of the repository differ only in names.
- WeightedChoice.WeightSlice.Choose: sums are exact, while the program adds floats; with no weight at all the program panics on the draw. Weights that change after construction are not modelled.
- Simpler copies of the modelled code: the light networks and light machines.
- Command lines, configuration files, the proxy server, price calculation, and converters between workload types.
