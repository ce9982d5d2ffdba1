/** The last octet of the private addresses of a batch of machines: taken from the machine if
    it asks for an address, and otherwise the first that is free on its network and node. */
module HostIds {
  import opened Wrappers
  import opened Addresses
  import opened Sequences

  /** A network and a node. */
  datatype Place = Place(network: string, node: nat)

  const FIRST: Octet := 2
  const LAST: Octet := 254

  type Used = map<Place, seq<Octet>>

  function At(used: Used, p: Place): seq<Octet> { if p in used then used[p] else [] }

  /** A machine that needs an address: where, in which subnet, and the one it asks for. */
  datatype Request = Request(place: Place, range: IPNet, preset: Option<Addr>)

  /** The first host id from `h` on that is not taken. */
  function FirstFree(taken: seq<Octet>, h: Octet): (r: Option<Octet>)
    requires h <= LAST
    ensures r.Some? ==> h <= r.value <= LAST && r.value !in taken
    ensures r.None? ==> forall x: Octet | h <= x <= LAST :: x in taken
    decreases LAST - h
  {
    if h !in taken then Some(h)
    else if h == LAST then None
    else FirstFree(taken, h + 1)
  }

  lemma {:induction false} FirstFreeIsLowest(taken: seq<Octet>, h: Octet, x: Octet)
    requires h <= LAST && FirstFree(taken, h).Some? && h <= x < FirstFree(taken, h).value
    ensures x in taken
    decreases LAST - h
  {
    if h != x { FirstFreeIsLowest(taken, h + 1, x); }
  }

  /** None of the 253 host ids is free. */
  predicate Exhausted(taken: seq<Octet>) {
    forall h: Octet | FIRST <= h <= LAST :: h in taken
  }

  lemma FirstFreeFailsIff(taken: seq<Octet>)
    ensures FirstFree(taken, FIRST).None? <==> Exhausted(taken)
  {
  }

  /** The address a request is given, and the host ids taken afterwards. An address asked for
      that is already taken is given again; one that is not must lie in the subnet. */
  datatype Given = Given(ip: Option<Addr>, taken: seq<Octet>)

  function Give(taken: seq<Octet>, r: Request): Given {
    match r.preset
    case Some(a) =>
      if a.d in taken then Given(Some(a), taken)
      else if !Contains(r.range, a) then Given(None, taken)
      else Given(Some(a), taken + [a.d])
    case None =>
      match FirstFree(taken, FIRST)
      case None => Given(None, taken)
      case Some(h) => Given(Some(r.range.ip.(d := h)), taken + [h])
  }

  function After(used: Used, r: Request): Used {
    var taken := Give(At(used, r.place), r).taken;
    if taken == At(used, r.place) then used else used[r.place := taken]
  }

  datatype Ran = Ran(used: Used, ips: seq<Option<Addr>>)

  function Run(requests: seq<Request>, used: Used): Ran
    decreases |requests|
  {
    if requests == [] then Ran(used, [])
    else
      var k := |requests| - 1;
      var before, r := Run(requests[..k], used), requests[k];
      Ran(After(before.used, r), before.ips + [Give(At(before.used, r.place), r).ip])
  }

  lemma {:induction false} RunLength(requests: seq<Request>, used: Used)
    ensures |Run(requests, used).ips| == |requests|
    decreases |requests|
  {
    if requests != [] { RunLength(requests[..|requests| - 1], used); }
  }

  /** The addresses of a shorter run are the first of the longer one's. */
  lemma {:induction false} RunPrefix(requests: seq<Request>, used: Used, k: nat)
    requires k <= |requests|
    ensures |Run(requests, used).ips| == |requests|
    ensures Run(requests[..k], used).ips == Run(requests, used).ips[..k]
    decreases |requests|
  {
    RunLength(requests, used);
    if k < |requests| {
      var m := |requests| - 1;
      assert requests[..m][..k] == requests[..k];
      RunPrefix(requests[..m], used, k);
    } else {
      assert requests[..k] == requests;
    }
  }

  /** Some request among the first `k` was given host `h` on `p`. */
  ghost predicate GivenBefore(requests: seq<Request>, ips: seq<Option<Addr>>, k: nat, p: Place, h: Octet)
    requires k <= |requests| && k <= |ips|
  {
    exists j | 0 <= j < k :: requests[j].place == p && ips[j].Some? && ips[j].value.d == h
  }

  lemma GiveIs(taken: seq<Octet>, r: Request, h: Octet)
    ensures h in Give(taken, r).taken <==> h in taken || (Give(taken, r).ip.Some? && Give(taken, r).ip.value.d == h)
  {
  }

  /** What is taken after a run: what was taken before it, and what it gave. */
  lemma {:induction false} TakenIs(requests: seq<Request>, used: Used, p: Place, h: Octet)
    ensures |Run(requests, used).ips| == |requests|
    ensures h in At(Run(requests, used).used, p) <==>
              h in At(used, p) || GivenBefore(requests, Run(requests, used).ips, |requests|, p, h)
    decreases |requests|
  {
    RunLength(requests, used);
    if requests != [] {
      var k := |requests| - 1;
      var r, before, ips := requests[k], Run(requests[..k], used), Run(requests, used).ips;
      RunLength(requests[..k], used);
      TakenIs(requests[..k], used, p, h);
      GiveIs(At(before.used, r.place), r, h);
      GivenNext(requests, before.ips, ips[k], p, h);
    }
  }

  lemma GivenNext(requests: seq<Request>, ips: seq<Option<Addr>>, ip: Option<Addr>, p: Place, h: Octet)
    requires requests != [] && |ips| == |requests| - 1
    ensures GivenBefore(requests, ips + [ip], |requests|, p, h) <==>
              || GivenBefore(requests[..|requests| - 1], ips, |requests| - 1, p, h)
              || (requests[|requests| - 1].place == p && ip.Some? && ip.value.d == h)
  {
  }

  lemma RunAt(requests: seq<Request>, used: Used, k: nat)
    requires k < |requests|
    ensures |Run(requests, used).ips| == |requests|
    ensures Run(requests, used).ips[k] == Give(At(Run(requests[..k], used).used, requests[k].place), requests[k]).ip
  {
    assert requests[..k + 1][..k] == requests[..k];
    RunPrefix(requests, used, k + 1);
    RunLength(requests[..k], used);
    assert Run(requests, used).ips[k] == Run(requests, used).ips[..k + 1][k];
  }

  lemma TakenAt(requests: seq<Request>, used: Used, k: nat, p: Place, h: Octet)
    requires k < |requests|
    ensures |Run(requests, used).ips| == |requests|
    ensures h in At(Run(requests[..k], used).used, p) <==>
              h in At(used, p) || GivenBefore(requests, Run(requests, used).ips, k, p, h)
  {
    RunPrefix(requests, used, k);
    TakenIs(requests[..k], used, p, h);
    var ips := Run(requests, used).ips;
    if j :| 0 <= j < k && requests[j].place == p && ips[j].Some? && ips[j].value.d == h {
      assert requests[..k][j] == requests[j] && ips[..k][j] == ips[j];
    }
  }

  /** An address chosen automatically lies in the machine's subnet, and its host id is the lowest
      between 2 and 254 that does not count as in use there and was not given there earlier in
      the run. */
  lemma AutomaticIsNew(requests: seq<Request>, used: Used, k: nat)
    requires k < |requests| && requests[k].preset.None?
    ensures |Run(requests, used).ips| == |requests|
    ensures var ips, r := Run(requests, used).ips, requests[k];
            ips[k].Some? ==>
              var h := ips[k].value.d;
              && ips[k].value == r.range.ip.(d := h) && 2 <= h <= 254
              && h !in At(used, r.place) && !GivenBefore(requests, ips, k, r.place, h)
              && forall x: Octet | 2 <= x < h :: x in At(used, r.place) || GivenBefore(requests, ips, k, r.place, x)
  {
    RunAt(requests, used, k);
    var ip := Run(requests, used).ips[k];
    if ip.Some? {
      forall x: Octet
        ensures x in At(Run(requests[..k], used).used, requests[k].place) <==>
                  x in At(used, requests[k].place)
                  || GivenBefore(requests, Run(requests, used).ips, k, requests[k].place, x)
      {
        TakenAt(requests, used, k, requests[k].place, x);
      }
      forall x: Octet | 2 <= x < ip.value.d ensures x in At(Run(requests[..k], used).used, requests[k].place) {
        FirstFreeIsLowest(At(Run(requests[..k], used).used, requests[k].place), FIRST, x);
      }
    }
  }

  /** Choosing fails exactly when all 253 host ids are taken. */
  lemma AutomaticFailsIff(requests: seq<Request>, used: Used, k: nat)
    requires k < |requests| && requests[k].preset.None?
    ensures |Run(requests, used).ips| == |requests|
    ensures var ips, p := Run(requests, used).ips, requests[k].place;
            ips[k].None? <==>
              forall h: Octet | FIRST <= h <= LAST :: h in At(used, p) || GivenBefore(requests, ips, k, p, h)
  {
    RunAt(requests, used, k);
    var taken := At(Run(requests[..k], used).used, requests[k].place);
    var p, ips := requests[k].place, Run(requests, used).ips;
    forall h: Octet ensures h in taken <==> h in At(used, p) || GivenBefore(requests, ips, k, p, h) {
      TakenAt(requests, used, k, p, h);
    }
    FirstFreeFailsIff(taken);
  }

  /** An address asked for is given or refused, and refused exactly when it lies outside the
      subnet and its host id is not taken. */
  lemma PresetFailsIff(requests: seq<Request>, used: Used, k: nat)
    requires k < |requests| && requests[k].preset.Some?
    ensures |Run(requests, used).ips| == |requests|
    ensures var ips, r, a := Run(requests, used).ips, requests[k], requests[k].preset.value;
            && (ips[k].Some? ==> ips[k].value == a)
            && (ips[k].None? <==>
                  !Contains(r.range, a) && a.d !in At(used, r.place) && !GivenBefore(requests, ips, k, r.place, a.d))
  {
    RunAt(requests, used, k);
    TakenAt(requests, used, k, requests[k].place, requests[k].preset.value.d);
  }

  /** Addresses asked for are not kept apart: one may repeat what was chosen before it. */
  lemma PresetCanCollide()
    ensures var p, range := Place("net", 1), IPNet(Addr(10, 1, 2, 0), M24);
            var requests := [Request(p, range, None), Request(p, range, Some(Addr(10, 1, 2, 2)))];
            Run(requests, map[]).ips == [Some(Addr(10, 1, 2, 2)), Some(Addr(10, 1, 2, 2))]
  {
    var p, range := Place("net", 1), IPNet(Addr(10, 1, 2, 0), M24);
    var requests := [Request(p, range, None), Request(p, range, Some(Addr(10, 1, 2, 2)))];
    assert requests[..1] == [requests[0]] && [requests[0]][..0] == [];
    assert Run([], map[]) == Ran(map[], []);
    assert FirstFree([], FIRST) == Some(2);
    assert Give([], requests[0]) == Given(Some(Addr(10, 1, 2, 2)), [2]);
    assert At(map[p := [2]], p) == [2] && Give([2], requests[1]) == Given(Some(Addr(10, 1, 2, 2)), [2]);
    assert Run(requests[..1], map[]) == Ran(map[p := [2]], [Some(Addr(10, 1, 2, 2))]);
  }

  // ----- Deployments --------------------------------------------------------------------

  datatype Vm = Vm(ip: Option<Addr>)

  /** `subnet` is that of the node in the network, if there is one. */
  datatype Deployment = Deployment(place: Place, subnet: Option<IPNet>, vms: seq<Vm>, vmsLight: seq<Vm>,
      range: Option<IPNet>)
  {
    predicate HasVms() { vms != [] || vmsLight != [] }
  }

  function RequestsOf(d: Deployment, vms: seq<Vm>): seq<Request>
    requires d.subnet.Some?
    ensures |RequestsOf(d, vms)| == |vms|
    decreases |vms|
  {
    if vms == [] then []
    else RequestsOf(d, vms[..|vms| - 1]) + [Request(d.place, d.subnet.value, vms[|vms| - 1].ip)]
  }

  /** The machines in the order they are served. */
  function Requests(ds: seq<Deployment>): seq<Request>
    decreases |ds|
  {
    if ds == [] then []
    else
      var d := ds[|ds| - 1];
      Requests(ds[..|ds| - 1]) + (if d.subnet.Some? then RequestsOf(d, d.vms) + RequestsOf(d, d.vmsLight) else [])
  }

  /** A machine that is given an address has it, one that is not stays as it was. */
  function Fill(vms: seq<Vm>, ips: seq<Option<Addr>>): seq<Vm>
    requires |vms| == |ips|
    decreases |vms|
  {
    if vms == [] then []
    else
      var k := |vms| - 1;
      Fill(vms[..k], ips[..k]) + [if ips[k].Some? then Vm(ips[k]) else vms[k]]
  }

  /** The deployments that go on: those without machines as they are, the others with the
      addresses filled in, and none whose node has no subnet. */
  function Filled(ds: seq<Deployment>, ips: seq<Option<Addr>>): seq<Deployment>
    requires |ips| == |Requests(ds)|
    decreases |ds|
  {
    if ds == [] then []
    else
      var init, d := ds[..|ds| - 1], ds[|ds| - 1];
      var n := |Requests(init)|;
      Filled(init, ips[..n]) +
      if !d.HasVms() then [d]
      else if d.subnet.None? then []
      else [d.(vms := Fill(d.vms, ips[n..n + |d.vms|]), vmsLight := Fill(d.vmsLight, ips[n + |d.vms|..]),
          range := d.subnet)]
  }

  /** The machines of the deployments whose node has a subnet, in the order they are served. */
  function Machines(ds: seq<Deployment>): seq<Vm>
    decreases |ds|
  {
    if ds == [] then []
    else
      var d := ds[|ds| - 1];
      Machines(ds[..|ds| - 1]) + (if d.subnet.Some? then d.vms + d.vmsLight else [])
  }

  lemma {:induction false} FillAt(vms: seq<Vm>, ips: seq<Option<Addr>>, k: nat)
    requires |vms| == |ips| && k < |vms|
    ensures |Fill(vms, ips)| == |vms|
    ensures Fill(vms, ips)[k] == Vm(if ips[k].Some? then ips[k] else vms[k].ip)
    decreases |vms|
  {
    FillLength(vms, ips);
    if k < |vms| - 1 {
      FillAt(vms[..|vms| - 1], ips[..|vms| - 1], k);
    } else {
      FillLength(vms[..k], ips[..k]);
    }
  }

  lemma {:induction false} FillLength(vms: seq<Vm>, ips: seq<Option<Addr>>)
    requires |vms| == |ips|
    ensures |Fill(vms, ips)| == |vms|
    decreases |vms|
  {
    if vms != [] { FillLength(vms[..|vms| - 1], ips[..|vms| - 1]); }
  }

  lemma FillIs(vms: seq<Vm>, ips: seq<Option<Addr>>)
    requires |vms| == |ips|
    ensures Fill(vms, ips) == WithAddresses(vms, ips)
  {
    FillLength(vms, ips);
    forall k | 0 <= k < |vms| ensures Fill(vms, ips)[k] == WithAddresses(vms, ips)[k] { FillAt(vms, ips, k); }
  }

  /** Each machine with the address it was given, or the one it had. */
  function WithAddresses(vms: seq<Vm>, ips: seq<Option<Addr>>): (r: seq<Vm>)
    requires |vms| == |ips|
    ensures |r| == |vms| && forall k | 0 <= k < |r| :: r[k] == Vm(if ips[k].Some? then ips[k] else vms[k].ip)
  {
    seq(|vms|, k requires 0 <= k < |vms| && |vms| == |ips| => Vm(if ips[k].Some? then ips[k] else vms[k].ip))
  }

  lemma {:induction false} MachinesCount(ds: seq<Deployment>)
    ensures |Machines(ds)| == |Requests(ds)|
    decreases |ds|
  {
    if ds != [] { MachinesCount(ds[..|ds| - 1]); }
  }

  lemma MachinesLast(ds: seq<Deployment>, d: Deployment)
    ensures Machines(ds + [d]) == Machines(ds) + (if d.subnet.Some? then d.vms + d.vmsLight else [])
  {
    assert (ds + [d])[..|ds|] == ds;
  }

  lemma WithAddressesSum(a: seq<Vm>, b: seq<Vm>, x: seq<Option<Addr>>, y: seq<Option<Addr>>)
    requires |x| == |a| && |y| == |b|
    ensures WithAddresses(a + b, x + y) == WithAddresses(a, x) + WithAddresses(b, y)
  {
  }

  /** One more deployment, its machines given the last addresses. */
  lemma FilledNext(ms: seq<Vm>, d: Deployment, filled: seq<Deployment>, before: seq<Option<Addr>>,
      given1: seq<Option<Addr>>, given2: seq<Option<Addr>>)
    requires d.HasVms() && d.subnet.Some? && |before| == |ms| && |given1| == |d.vms| && |given2| == |d.vmsLight|
    requires Machines(filled) == WithAddresses(ms, before)
    ensures Machines(filled + [d.(vms := Fill(d.vms, given1), vmsLight := Fill(d.vmsLight, given2), range := d.subnet)])
         == WithAddresses(ms + (d.vms + d.vmsLight), before + (given1 + given2))
  {
    FillIs(d.vms, given1);
    FillIs(d.vmsLight, given2);
    WithAddressesSum(d.vms, d.vmsLight, given1, given2);
    WithAddressesSum(ms, d.vms + d.vmsLight, before, given1 + given2);
    MachinesLast(filled, d.(vms := Fill(d.vms, given1), vmsLight := Fill(d.vmsLight, given2), range := d.subnet));
  }

  lemma RunNext(requests: seq<Request>, used: Used, r: Request)
    ensures var before := Run(requests, used);
            Run(requests + [r], used) == Ran(After(before.used, r), before.ips + [Give(At(before.used, r.place), r).ip])
  {
  }

  /** The first `i` machines of a deployment are served, after the requests before them. */
  ghost predicate Serving(d: Deployment, vms: seq<Vm>, i: nat, filled: seq<Vm>, given: seq<Option<Addr>>, ran: Ran,
                          requests: seq<Request>, start: Used)
    requires d.subnet.Some? && i <= |vms|
  {
    && |given| == i && filled == Fill(vms[..i], given)
    && ran == Run(requests + RequestsOf(d, vms[..i]), start)
  }

  lemma ServeNext(d: Deployment, vms: seq<Vm>, i: nat, filled: seq<Vm>, given: seq<Option<Addr>>, ran: Ran,
                  requests: seq<Request>, start: Used)
    requires d.subnet.Some? && i < |vms| && Serving(d, vms, i, filled, given, ran, requests, start)
    ensures var r := Request(d.place, d.subnet.value, vms[i].ip);
            var ip := Give(At(ran.used, r.place), r).ip;
            Serving(d, vms, i + 1, filled + [if ip.Some? then Vm(ip) else vms[i]], given + [ip],
              Ran(After(ran.used, r), ran.ips + [ip]), requests, start)
  {
    var r := Request(d.place, d.subnet.value, vms[i].ip);
    var ip := Give(At(ran.used, r.place), r).ip;
    RunNext(requests + RequestsOf(d, vms[..i]), start, r);
    assert vms[..i + 1][..i] == vms[..i] && (given + [ip])[..i] == given;
    assert RequestsOf(d, vms[..i + 1]) == RequestsOf(d, vms[..i]) + [r];
    assert (requests + RequestsOf(d, vms[..i])) + [r] == requests + RequestsOf(d, vms[..i + 1]);
  }

  /** These deployments are served. */
  ghost predicate Served(ds: seq<Deployment>, newDs: seq<Deployment>, ran: Ran, start: Used) {
    |ran.ips| == |Requests(ds)| && ran == Run(Requests(ds), start) && newDs == Filled(ds, ran.ips)
  }

  lemma RequestsLast(ds: seq<Deployment>, d: Deployment)
    requires d.subnet.Some?
    ensures Requests(ds + [d]) == Requests(ds) + RequestsOf(d, d.vms) + RequestsOf(d, d.vmsLight)
  {
    assert (ds + [d])[..|ds|] == ds;
    Parts(Requests(ds), RequestsOf(d, d.vms), RequestsOf(d, d.vmsLight));
  }

  lemma FilledLast(ds: seq<Deployment>, d: Deployment, ips: seq<Option<Addr>>, given1: seq<Option<Addr>>,
        given2: seq<Option<Addr>>)
    requires d.HasVms() && d.subnet.Some? && |ips| == |Requests(ds)| && |given1| == |d.vms| && |given2| == |d.vmsLight|
    ensures |Requests(ds + [d])| == |ips + given1 + given2|
    ensures Filled(ds + [d], ips + given1 + given2) ==
              Filled(ds, ips) + [d.(vms := Fill(d.vms, given1), vmsLight := Fill(d.vmsLight, given2),
                  range := d.subnet)]
  {
    assert (ds + [d])[..|ds|] == ds;
    RequestsLast(ds, d);
    Parts(ips, given1, given2);
  }

  lemma FilledServed(init: seq<Deployment>, d: Deployment, before: seq<Option<Addr>>, given1: seq<Option<Addr>>,
        given2: seq<Option<Addr>>)
    requires d.HasVms() && d.subnet.Some?
    requires |before| == |Requests(init)| == |Machines(init)| && |given1| == |d.vms| && |given2| == |d.vmsLight|
    requires Machines(Filled(init, before)) == WithAddresses(Machines(init), before)
    ensures var ips := before + given1 + given2;
            && |ips| == |Requests(init + [d])| && |ips| == |Machines(init + [d])|
            && Machines(Filled(init + [d], ips)) == WithAddresses(Machines(init + [d]), ips)
  {
    RequestsLast(init, d);
    var filled, ms := Filled(init, before), Machines(init);
    var d' := d.(vms := Fill(d.vms, given1), vmsLight := Fill(d.vmsLight, given2), range := d.subnet);
    assert Filled(init + [d], before + given1 + given2) == filled + [d'] by {
      FilledLast(init, d, before, given1, given2);
    }
    assert Machines(init + [d]) == ms + (d.vms + d.vmsLight) by { MachinesLast(init, d); }
    assert Machines(filled + [d']) == WithAddresses(ms + (d.vms + d.vmsLight), before + given1 + given2) by {
      FilledNext(ms, d, filled, before, given1, given2);
      Parts(before, given1, given2);
    }
  }

  /** A deployment without machines, or without a subnet. */
  lemma FilledSkip(ds: seq<Deployment>, ips: seq<Option<Addr>>)
    requires ds != [] && |ips| == |Requests(ds)|
    requires var d := ds[|ds| - 1]; !d.HasVms() || d.subnet.None?
    ensures var init := ds[..|ds| - 1];
            && |Requests(init)| == |ips| && Machines(ds) == Machines(init)
            && Machines(Filled(ds, ips)) == Machines(Filled(init, ips))
  {
    var init, d := ds[..|ds| - 1], ds[|ds| - 1];
    assert ips[..|ips|] == ips;
    assert d.subnet.Some? ==> d.vms + d.vmsLight == [];
    MachinesLast(Filled(init, ips), d);
    assert Filled(init, ips) + [] == Filled(init, ips);
  }

  lemma Cut(ips: seq<Option<Addr>>, n: nat, k: nat)
    requires n <= k <= |ips|
    ensures ips[..n] + ips[n..k] + ips[k..] == ips
  {
  }

  /** The machines of what goes on are the machines served, in their order, each with the address
      it was given, or the one it had if it was given none. */
  lemma {:induction false} FilledMachines(ds: seq<Deployment>, ips: seq<Option<Addr>>)
    requires |ips| == |Requests(ds)|
    ensures |Machines(ds)| == |ips| && Machines(Filled(ds, ips)) == WithAddresses(Machines(ds), ips)
    decreases |ds|
  {
    MachinesCount(ds);
    if ds != [] {
      var init, d := ds[..|ds| - 1], ds[|ds| - 1];
      MachinesCount(init);
      if d.HasVms() && d.subnet.Some? {
        var n, k := |Requests(init)|, |Requests(init)| + |d.vms|;
        assert ds == init + [d];
        RequestsLast(init, d);
        FilledMachines(init, ips[..n]);
        FilledServed(init, d, ips[..n], ips[n..k], ips[k..]);
        Cut(ips, n, k);
      } else {
        FilledSkip(ds, ips);
        FilledMachines(init, ips);
      }
    }
  }

  /** One more deployment is served. */
  lemma ServedNext(ds: seq<Deployment>, d: Deployment, newDs: seq<Deployment>, ran: Ran, start: Used,
                   after: Used, given1: seq<Option<Addr>>, given2: seq<Option<Addr>>)
    requires Served(ds, newDs, ran, start) && d.HasVms() && d.subnet.Some?
    requires |given1| == |d.vms| && |given2| == |d.vmsLight|
    requires Ran(after, ran.ips + given1 + given2)
        == Run(Requests(ds) + RequestsOf(d, d.vms) + RequestsOf(d, d.vmsLight), start)
    ensures Served(ds + [d],
              newDs + [d.(vms := Fill(d.vms, given1), vmsLight := Fill(d.vmsLight, given2), range := d.subnet)],
              Ran(after, ran.ips + given1 + given2), start)
  {
    RequestsLast(ds, d);
    FilledLast(ds, d, ran.ips, given1, given2);
  }

  /** One without machines goes on as it is, and one without a subnet does not go on. */
  lemma ServedSkip(ds: seq<Deployment>, d: Deployment, newDs: seq<Deployment>, ran: Ran, start: Used)
    requires Served(ds, newDs, ran, start) && (!d.HasVms() || d.subnet.None?)
    ensures Served(ds + [d], newDs + (if d.HasVms() then [] else [d]), ran, start)
  {
    assert (ds + [d])[..|ds|] == ds && ran.ips[..|ran.ips|] == ran.ips;
    assert Requests(ds) + ([] + []) == Requests(ds);
  }

  // ----- Host ids in use ------------------------------------------------------------------

  ghost predicate InUse(ips: seq<Option<Addr>>, subnet: IPNet, h: Octet) {
    exists k | 0 <= k < |ips| :: ips[k].Some? && Contains(subnet, ips[k].value) && ips[k].value.d == h
  }

  /** The host ids of the addresses a node lists that lie in its subnet; what is not an
      address is passed over. */
  method UsedHostIds(ips: seq<Option<Addr>>, subnet: Option<IPNet>) returns (r: Option<seq<Octet>>)
    ensures r.Some? <==> subnet.Some?
    ensures r.Some? ==> forall h :: h in r.value <==> InUse(ips, subnet.value, h)
  {
    if subnet.None? { return None; }
    var hosts: seq<Octet> := [];
    for k := 0 to |ips|
      invariant forall h :: h in hosts <==> InUse(ips[..k], subnet.value, h)
    {
      if ips[k].Some? && Contains(subnet.value, ips[k].value) { hosts := hosts + [ips[k].value.d]; }
      forall h ensures InUse(ips[..k + 1], subnet.value, h) <==>
                         InUse(ips[..k], subnet.value, h)
                         || (ips[k].Some? && Contains(subnet.value, ips[k].value) && ips[k].value.d == h)
      {
        if j :| 0 <= j < k && ips[..k][j].Some?
                && Contains(subnet.value, ips[..k][j].value) && ips[..k][j].value.d == h {
          assert ips[..k + 1][j] == ips[..k][j];
        }
        if ips[k].Some? && Contains(subnet.value, ips[k].value) && ips[k].value.d == h {
          assert ips[..k + 1][k] == ips[k];
        }
      }
    }
    assert ips[..|ips|] == ips;
    r := Some(hosts);
  }

  /** One of the first `k` deployments has machines there. */
  predicate Wants(ds: seq<Deployment>, k: nat, p: Place)
    requires k <= |ds|
    decreases k
  {
    k > 0 && (Wants(ds, k - 1, p) || (ds[k - 1].HasVms() && ds[k - 1].place == p))
  }

  /** The addresses on each node, network by network; what is not an address is None. */
  type Net = map<Place, seq<Option<Addr>>>

  function On(net: Net, p: Place): seq<Option<Addr>> { if p in net then net[p] else [] }

  /** What is known to be in use when the nodes in `heard` have listed their addresses and the
      others have not. */
  ghost predicate Known(used: Used, ds: seq<Deployment>, k: nat, net: Net, heard: set<Place>,
      subnets: Place -> Option<IPNet>)
    requires k <= |ds|
  {
    forall p, h ::
      h in At(used, p) <==> Wants(ds, k, p) && p in heard && subnets(p).Some? && InUse(On(net, p), subnets(p).value, h)
  }

  /** The node lists its addresses and the network has a subnet for it. */
  predicate Listed(heard: set<Place>, subnets: Place -> Option<IPNet>, p: Place) {
    p in heard && subnets(p).Some?
  }

  /** What is in use where the deployments have machines. Each place is asked on its own, and
      again for every deployment that comes before the first answer. */
  method CalculateUsed(ds: seq<Deployment>, net: Net, heard: set<Place>, subnets: Place -> Option<IPNet>)
      returns (used: Used, ok: bool)
    ensures Known(used, ds, |ds|, net, heard, subnets)
    ensures ok <==> forall p | Wants(ds, |ds|, p) :: Listed(heard, subnets, p)
  {
    used, ok := map[], true;
    for k := 0 to |ds|
      invariant Known(used, ds, k, net, heard, subnets)
      invariant forall p | p in used :: Wants(ds, k, p) && Listed(heard, subnets, p)
      invariant ok <==> forall p | Wants(ds, k, p) :: Listed(heard, subnets, p)
    {
      var d := ds[k];
      if d.vms == [] && d.vmsLight == [] { continue; }
      assert forall p :: Wants(ds, k + 1, p) <==> Wants(ds, k, p) || p == d.place;
      var answered: bool := *;
      if d.place in used && answered { continue; }
      if d.place !in heard {
        assert !Listed(heard, subnets, d.place);
        ok := false;
        continue;
      }
      var hosts := UsedHostIds(On(net, d.place), subnets(d.place));
      match hosts {
        case None =>
          assert !Listed(heard, subnets, d.place);
          ok := false;
        case Some(hs) => used := used[d.place := At(used, d.place) + hs];
      }
    }
  }

  predicate AllGiven(ips: seq<Option<Addr>>) { forall i | 0 <= i < |ips| :: ips[i].Some? }

  /** Every deployment with machines has a subnet for them. */
  predicate AllServable(ds: seq<Deployment>) { forall k | 0 <= k < |ds| :: ds[k].HasVms() ==> ds[k].subnet.Some? }

  lemma AllGivenPlus(a: seq<Option<Addr>>, b: seq<Option<Addr>>)
    ensures AllGiven(a + b) <==> AllGiven(a) && AllGiven(b)
  {
    assert forall i | 0 <= i < |a| :: a[i] == (a + b)[i];
    assert forall i | 0 <= i < |b| :: b[i] == (a + b)[|a| + i];
  }

  lemma AllServableNext(ds: seq<Deployment>, k: nat)
    requires k < |ds|
    ensures AllServable(ds[..k + 1]) <==> AllServable(ds[..k]) && (ds[k].HasVms() ==> ds[k].subnet.Some?)
  {
  }

  class Assigner {
    var used: Used

    constructor (used: Used)
      ensures this.used == used
    {
      this.used := used;
    }

    method AssignPrivateIP(r: Request) returns (ip: Option<Addr>)
      modifies this
      ensures ip == Give(At(old(used), r.place), r).ip && used == After(old(used), r)
    {
      var taken := At(used, r.place);
      if r.preset.Some? {
        var a := r.preset.value;
        if a.d in taken { return Some(a); }
        if !Contains(r.range, a) { return None; }
        used := used[r.place := taken + [a.d]];
        return Some(a);
      }
      var h := FIRST;
      while h in taken
        invariant FIRST <= h <= LAST && FirstFree(taken, h) == FirstFree(taken, FIRST)
        decreases LAST - h
      {
        if h == LAST { return None; }
        h := h + 1;
      }
      used := used[r.place := taken + [h]];
      return Some(r.range.ip.(d := h));
    }

    method AssignAll(d: Deployment, vms: seq<Vm>, ghost start: Used, ghost requests: seq<Request>,
          ghost ips: seq<Option<Addr>>)
      returns (filled: seq<Vm>, ok: bool, ghost given: seq<Option<Addr>>)
      requires d.subnet.Some? && Ran(used, ips) == Run(requests, start)
      modifies this
      ensures |given| == |vms| && filled == Fill(vms, given)
      ensures Ran(used, ips + given) == Run(requests + RequestsOf(d, vms), start)
      ensures ok <==> AllGiven(given)
    {
      filled, ok, given := [], true, [];
      ghost var ran := Ran(used, ips);
      assert requests + [] == requests;
      for i := 0 to |vms|
        invariant Serving(d, vms, i, filled, given, ran, requests, start)
        invariant ran.used == used && ran.ips == ips + given
        invariant ok <==> AllGiven(given)
      {
        ServeNext(d, vms, i, filled, given, ran, requests, start);
        var ip := AssignPrivateIP(Request(d.place, d.subnet.value, vms[i].ip));
        ok := ok && ip.Some?;
        filled := filled + [if ip.Some? then Vm(ip) else vms[i]];
        AllGivenPlus(given, [ip]);
        assert ips + (given + [ip]) == (ips + given) + [ip];
        given, ran := given + [ip], Ran(used, ran.ips + [ip]);
      }
      assert vms[..|vms|] == vms;
    }

    /** One deployment: what goes on of it, and whether all of it was served. */
    method AssignOne(d: Deployment, ghost before: seq<Deployment>, ghost newDs: seq<Deployment>,
          ghost ips: seq<Option<Addr>>, ghost start: Used)
      returns (next: seq<Deployment>, ok: bool, ghost given: seq<Option<Addr>>)
      requires Served(before, newDs, Ran(used, ips), start)
      modifies this
      ensures Served(before + [d], newDs + next, Ran(used, ips + given), start)
      ensures ok <==> AllGiven(given) && (d.HasVms() ==> d.subnet.Some?)
    {
      if d.vms == [] && d.vmsLight == [] {
        ServedSkip(before, d, newDs, Ran(used, ips), start);
        assert ips + [] == ips;
        return [d], true, [];
      }
      if d.subnet.None? {
        ServedSkip(before, d, newDs, Ran(used, ips), start);
        assert ips + [] == ips;
        return [], false, [];
      }
      ghost var ran := Ran(used, ips);
      var vms, ok1, given1 := AssignAll(d, d.vms, start, Requests(before), ips);
      var light, ok2, given2 := AssignAll(d, d.vmsLight, start, Requests(before) + RequestsOf(d, d.vms), ips + given1);
      ServedNext(before, d, newDs, ran, start, used, given1, given2);
      AllGivenPlus(given1, given2);
      Parts(ips, given1, given2);
      given := given1 + given2;
      next, ok := [d.(vms := vms, vmsLight := light, range := d.subnet)], ok1 && ok2;
    }

    /** Addresses for the machines of all deployments; when some machine or some deployment
        cannot be served, the others are all the same. */
    method ServeAll(ds: seq<Deployment>) returns (newDs: seq<Deployment>, ok: bool,
          ghost ips: seq<Option<Addr>>)
      modifies this
      ensures Ran(used, ips) == Run(Requests(ds), old(used))
      ensures |ips| == |Requests(ds)| && newDs == Filled(ds, ips)
      ensures ok <==> AllGiven(ips) && AllServable(ds)
    {
      newDs, ok, ips := [], true, [];
      ghost var start := used;
      for k := 0 to |ds|
        invariant Served(ds[..k], newDs, Ran(used, ips), start)
        invariant ok <==> AllGiven(ips) && AllServable(ds[..k])
      {
        AllServableNext(ds, k);
        assert ds[..k + 1] == ds[..k] + [ds[k]];
        var next, served;
        ghost var given;
        next, served, given := AssignOne(ds[k], ds[..k], newDs, ips, start);
        AllGivenPlus(ips, given);
        newDs, ok, ips := newDs + next, ok && served, ips + given;
      }
      assert ds[..|ds|] == ds;
    }
  }

  // ----- The whole call -------------------------------------------------------------------

  /** The deployments have the subnets of the network's state. */
  predicate Placed(ds: seq<Deployment>, subnets: Place -> Option<IPNet>) {
    forall d | d in ds :: d.subnet == subnets(d.place)
  }

  /** No address chosen automatically is on its node already. */
  ghost predicate Avoids(requests: seq<Request>, ips: seq<Option<Addr>>, net: Net)
    requires |ips| == |requests|
  {
    forall k | 0 <= k < |requests| && requests[k].preset.None? && ips[k].Some? ::
      !InUse(On(net, requests[k].place), requests[k].range, ips[k].value.d)
  }

  /** Every automatic address was chosen on a node that had listed its own. */
  predicate ChosenHeard(requests: seq<Request>, ips: seq<Option<Addr>>, heard: set<Place>)
    requires |ips| == |requests|
  {
    forall k | 0 <= k < |requests| && requests[k].preset.None? && ips[k].Some? :: requests[k].place in heard
  }

  lemma {:induction false} RequestsOfAt(d: Deployment, vms: seq<Vm>, k: nat)
    requires d.subnet.Some? && k < |vms|
    ensures RequestsOf(d, vms)[k].place == d.place && RequestsOf(d, vms)[k].range == d.subnet.value
    decreases |vms|
  {
    if k < |vms| - 1 { RequestsOfAt(d, vms[..|vms| - 1], k); }
  }

  /** A request comes from a deployment with machines, in its subnet. */
  lemma {:induction false} RequestIsWanted(ds: seq<Deployment>, subnets: Place -> Option<IPNet>, k: nat)
    requires Placed(ds, subnets) && k < |Requests(ds)|
    ensures var r := Requests(ds)[k]; Wants(ds, |ds|, r.place) && subnets(r.place) == Some(r.range)
    decreases |ds|
  {
    var init, d := ds[..|ds| - 1], ds[|ds| - 1];
    assert ds == init + [d] && d in ds;
    if k < |Requests(init)| {
      RequestIsWanted(init, subnets, k);
      WantsFirst(ds, |init|, Requests(init)[k].place);
    } else {
      var j := k - |Requests(init)|;
      if j < |d.vms| { RequestsOfAt(d, d.vms, j); } else { RequestsOfAt(d, d.vmsLight, j - |d.vms|); }
    }
  }

  lemma {:induction false} WantsFirst(ds: seq<Deployment>, k: nat, p: Place)
    requires k <= |ds|
    ensures Wants(ds[..k], k, p) <==> Wants(ds, k, p)
    decreases k
  {
    if k > 0 {
      assert ds[..k][..k - 1] == ds[..k - 1];
      WantsFirst(ds, k - 1, p);
      WantsFirst(ds[..k], k - 1, p);
    }
  }

  /** Where a node has listed its addresses, no automatic one is among them. */
  lemma HeardIsAvoided(ds: seq<Deployment>, used: Used, net: Net, heard: set<Place>, subnets: Place -> Option<IPNet>,
      k: nat)
    requires Placed(ds, subnets) && Known(used, ds, |ds|, net, heard, subnets) && k < |Requests(ds)|
    requires Requests(ds)[k].preset.None? && Requests(ds)[k].place in heard
    ensures |Run(Requests(ds), used).ips| == |Requests(ds)|
    ensures var r, ip := Requests(ds)[k], Run(Requests(ds), used).ips[k];
            ip.Some? ==> !InUse(On(net, r.place), r.range, ip.value.d)
  {
    AutomaticIsNew(Requests(ds), used, k);
    RequestIsWanted(ds, subnets, k);
  }

  ghost predicate SameWhere(a: Net, b: Net, heard: set<Place>) {
    forall p | p in heard :: On(a, p) == On(b, p)
  }

  /** With subnets wider than one address the call keeps off the addresses on the nodes, whatever
      those that did not answer have, exactly when every node on which an address was chosen
      answered. */
  lemma AvoidsIff(ds: seq<Deployment>, used: Used, net: Net, heard: set<Place>, subnets: Place -> Option<IPNet>)
    requires Placed(ds, subnets) && Known(used, ds, |ds|, net, heard, subnets)
    requires forall k | 0 <= k < |Requests(ds)| :: Requests(ds)[k].range.mask != M32
    ensures |Run(Requests(ds), used).ips| == |Requests(ds)|
    ensures var ips := Run(Requests(ds), used).ips;
            (forall other | SameWhere(net, other, heard) :: Avoids(Requests(ds), ips, other)) <==>
              ChosenHeard(Requests(ds), ips, heard)
  {
    var requests := Requests(ds);
    RunLength(requests, used);
    var ips := Run(requests, used).ips;
    if ChosenHeard(requests, ips, heard) {
      forall other | SameWhere(net, other, heard) ensures Avoids(requests, ips, other) {
        HeardAvoids(ds, used, net, other, heard, subnets);
      }
    } else {
      var k :| 0 <= k < |requests| && requests[k].preset.None? && ips[k].Some? && requests[k].place !in heard;
      var other := net[requests[k].place := [ips[k]]];
      AutomaticIsNew(requests, used, k);
      assert InUse([ips[k]], requests[k].range, ips[k].value.d) by { assert [ips[k]][0] == ips[k]; }
      assert SameWhere(net, other, heard) && !Avoids(requests, ips, other);
    }
  }

  lemma HeardAvoids(ds: seq<Deployment>, used: Used, net: Net, other: Net, heard: set<Place>,
        subnets: Place -> Option<IPNet>)
    requires Placed(ds, subnets) && Known(used, ds, |ds|, net, heard, subnets) && SameWhere(net, other, heard)
    requires |Run(Requests(ds), used).ips| == |Requests(ds)|
    requires ChosenHeard(Requests(ds), Run(Requests(ds), used).ips, heard)
    ensures Avoids(Requests(ds), Run(Requests(ds), used).ips, other)
  {
    var requests, ips := Requests(ds), Run(Requests(ds), used).ips;
    forall k | 0 <= k < |requests| && requests[k].preset.None? && ips[k].Some?
      ensures !InUse(On(other, requests[k].place), requests[k].range, ips[k].value.d)
    {
      HeardIsAvoided(ds, used, net, heard, subnets, k);
    }
  }

  /** Addresses for a batch: what the nodes list counts as in use, what they fail to list does
      not, and the batch goes on. The error says so, but every machine that can be is served. */
  method AssignPrivateIPs(ds: seq<Deployment>, net: Net, heard: set<Place>, subnets: Place -> Option<IPNet>)
      returns (newDs: seq<Deployment>, ok: bool, ghost used: Used, ghost ips: seq<Option<Addr>>)
    requires Placed(ds, subnets)
    ensures Known(used, ds, |ds|, net, heard, subnets) && ips == Run(Requests(ds), used).ips
    ensures |ips| == |Requests(ds)| && newDs == Filled(ds, ips)
    ensures ok <==> && AllGiven(ips) && AllServable(ds) && (forall p | Wants(ds, |ds|, p) :: Listed(heard, subnets, p))
    ensures ChosenHeard(Requests(ds), ips, heard) ==> Avoids(Requests(ds), ips, net)
    ensures ok ==> Avoids(Requests(ds), ips, net)
  {
    var known, listed := CalculateUsed(ds, net, heard, subnets);
    used := known;
    var assigner := new Assigner(known);
    newDs, ok, ips := assigner.ServeAll(ds);
    ok := ok && listed;
    if ChosenHeard(Requests(ds), ips, heard) { HeardAvoids(ds, used, net, net, heard, subnets); }
    if ok {
      forall k | 0 <= k < |Requests(ds)| ensures Requests(ds)[k].place in heard {
        RequestIsWanted(ds, subnets, k);
        assert Listed(heard, subnets, Requests(ds)[k].place);
      }
    }
  }

  /** A node that fails to list its addresses has 10.1.2.2, and the machine is given it again. */
  lemma UnheardIsRepeated(used: Used, subnets: Place -> Option<IPNet>, p: Place)
    requires subnets(p) == Some(IPNet(Addr(10, 1, 2, 0), M24))
    requires Known(used, [Deployment(p, subnets(p), [Vm(None)], [], None)], 1, map[p := [Some(Addr(10, 1, 2, 2))]], {},
        subnets)
    ensures var ds := [Deployment(p, subnets(p), [Vm(None)], [], None)];
            && Requests(ds) == [Request(p, subnets(p).value, None)]
            && Run(Requests(ds), used).ips == [Some(Addr(10, 1, 2, 2))]
            && !Avoids(Requests(ds), [Some(Addr(10, 1, 2, 2))], map[p := [Some(Addr(10, 1, 2, 2))]])
  {
    var d, r := Deployment(p, subnets(p), [Vm(None)], [], None), Request(p, subnets(p).value, None);
    assert [d][..0] == [] && [Vm(None)][..0] == [];
    assert RequestsOf(d, []) == [] && RequestsOf(d, [Vm(None)]) == [r];
    assert Requests([d]) == [] + ([r] + []);
    assert FIRST !in At(used, p);
    assert FirstFree(At(used, p), FIRST) == Some(FIRST);
    assert [r][..0] == [] && Run([], used) == Ran(used, []);
    var list := [Some(Addr(10, 1, 2, 2))];
    assert list[0].Some? && InUse(list, r.range, 2);
  }
}
