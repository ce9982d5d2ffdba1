/** Which GPUs of a node a request counts. A GPU is kept once for every filter that names it,
    so a name given twice counts its GPUs twice. */
module FarmGpus {
  import opened Sequences
  import opened FarmTypes

  datatype Field = Vendor | Device
  {
    function Of(g: Gpu): string {
      match this
      case Vendor => g.vendor
      case Device => g.device
    }
  }

  /** A GPU once for every filter that is its name. */
  function Repeat(g: Gpu, name: string, filters: seq<string>): seq<Gpu>
    decreases |filters|
  {
    if filters == [] then []
    else Repeat(g, name, filters[..|filters| - 1]) + (if filters[|filters| - 1] == name then [g] else [])
  }

  function Filtered(gpus: seq<Gpu>, field: Field, names: seq<string>): seq<Gpu>
    decreases |gpus|
  {
    if gpus == [] then []
    else
      var init, last := gpus[..|gpus| - 1], gpus[|gpus| - 1];
      Filtered(init, field, names) + Repeat(last, field.Of(last), names)
  }

  /** The GPUs left by a request's filters; no filter leaves all of them. */
  function Matching(gpus: seq<Gpu>, vendors: seq<string>, devices: seq<string>): seq<Gpu> {
    var left := if vendors != [] then Filtered(gpus, Vendor, vendors) else gpus;
    if devices != [] then Filtered(left, Device, devices) else left
  }

  // ----- What a filter keeps --------------------------------------------------------------

  lemma OneMore(a: nat, c: nat)
    ensures (a + 1) * c == a * c + c
  {
  }

  lemma {:induction false} RepeatOccurs(g: Gpu, name: string, filters: seq<string>, x: Gpu)
    ensures Occurs(Repeat(g, name, filters), x) == if x == g then Occurs(filters, name) else 0
    decreases |filters|
  {
    if filters != [] {
      var k := |filters| - 1;
      RepeatOccurs(g, name, filters[..k], x);
      var before := Repeat(g, name, filters[..k]);
      OccursNext(before, g, x);
      assert before + [] == before;
    }
  }

  /** A filter keeps each GPU as often as it was there, times the filters that name it. */
  lemma {:induction false} FilteredOccurs(gpus: seq<Gpu>, field: Field, names: seq<string>, g: Gpu)
    ensures Occurs(Filtered(gpus, field, names), g) == Occurs(gpus, g) * Occurs(names, field.Of(g))
    decreases |gpus|
  {
    if gpus != [] {
      var init, last := gpus[..|gpus| - 1], gpus[|gpus| - 1];
      FilteredOccurs(init, field, names, g);
      OccursAppend(Filtered(init, field, names), Repeat(last, field.Of(last), names), g);
      RepeatOccurs(last, field.Of(last), names, g);
      OneMore(Occurs(init, g), Occurs(names, field.Of(g)));
    }
  }

  // ----- How many are counted -------------------------------------------------------------

  function Naming(names: seq<string>, name: string): nat {
    if names == [] then 1 else Occurs(names, name)
  }

  /** How often a request counts a GPU. */
  function Times(g: Gpu, vendors: seq<string>, devices: seq<string>): nat {
    Naming(vendors, g.vendor) * Naming(devices, g.device)
  }

  /** How many GPUs a request names. */
  function Named(gpus: seq<Gpu>, vendors: seq<string>, devices: seq<string>): nat
    decreases |gpus|
  {
    if gpus == [] then 0
    else Named(gpus[..|gpus| - 1], vendors, devices) + (if Times(gpus[|gpus| - 1], vendors, devices) > 0 then 1 else 0)
  }

  lemma {:induction false} RepeatIs(g: Gpu, name: string, filters: seq<string>)
    ensures |Repeat(g, name, filters)| == Occurs(filters, name)
    ensures forall i | 0 <= i < |Repeat(g, name, filters)| :: Repeat(g, name, filters)[i] == g
    decreases |filters|
  {
    if filters != [] { RepeatIs(g, name, filters[..|filters| - 1]); }
  }

  lemma FilteredNext(gpus: seq<Gpu>, g: Gpu, field: Field, names: seq<string>)
    ensures Filtered(gpus + [g], field, names) == Filtered(gpus, field, names) + Repeat(g, field.Of(g), names)
  {
    assert (gpus + [g])[..|gpus|] == gpus;
  }

  /** Filtering some more GPUs of one kind. */
  lemma {:induction false} FilteredMore(gpus: seq<Gpu>, more: seq<Gpu>, g: Gpu, field: Field, names: seq<string>)
    requires forall i | 0 <= i < |more| :: more[i] == g
    ensures |Filtered(gpus + more, field, names)|
         == |Filtered(gpus, field, names)| + |more| * Occurs(names, field.Of(g))
    decreases |more|
  {
    if more == [] {
      assert gpus + more == gpus;
    } else {
      var k := |more| - 1;
      FilteredMore(gpus, more[..k], g, field, names);
      assert gpus + more == (gpus + more[..k]) + [g];
      FilteredNext(gpus + more[..k], g, field, names);
      RepeatIs(g, field.Of(g), names);
      OneMore(k, Occurs(names, field.Of(g)));
    }
  }

  /** The next GPU is counted as often as both lists of filters name it. */
  lemma MatchingNext(gpus: seq<Gpu>, g: Gpu, vendors: seq<string>, devices: seq<string>)
    ensures |Matching(gpus + [g], vendors, devices)| == |Matching(gpus, vendors, devices)| + Times(g, vendors, devices)
  {
    var left := if vendors != [] then Filtered(gpus, Vendor, vendors) else gpus;
    var more := if vendors != [] then Repeat(g, g.vendor, vendors) else [g];
    FilteredNext(gpus, g, Vendor, vendors);
    RepeatIs(g, g.vendor, vendors);
    if devices != [] { FilteredMore(left, more, g, Device, devices); }
  }

  /** A request counts at least the GPUs it names, and exactly those when and only when none
      of them is named twice. */
  lemma {:induction false} CountedOnceIff(gpus: seq<Gpu>, vendors: seq<string>, devices: seq<string>)
    ensures |Matching(gpus, vendors, devices)| >= Named(gpus, vendors, devices)
    ensures |Matching(gpus, vendors, devices)| == Named(gpus, vendors, devices) <==>
              forall g | g in gpus :: Times(g, vendors, devices) <= 1
    decreases |gpus|
  {
    if gpus != [] {
      var init, last := gpus[..|gpus| - 1], gpus[|gpus| - 1];
      assert gpus == init + [last];
      CountedOnceIff(init, vendors, devices);
      MatchingNext(init, last, vendors, devices);
    }
  }

  /** One GPU satisfies a request for two when its vendor is asked for twice. */
  lemma TwiceNamedCountsTwice(g: Gpu)
    ensures |Matching([g], [g.vendor, g.vendor], [])| == 2 && Named([g], [g.vendor, g.vendor], []) == 1
  {
    MatchingNext([], g, [g.vendor, g.vendor], []);
    assert Matching([], [g.vendor, g.vendor], []) == [];
    assert [] + [g] == [g] && [g][..0] == [];
    OccursNext([g.vendor], g.vendor, g.vendor);
    OccursNext([], g.vendor, g.vendor);
    assert [g.vendor, g.vendor] == [g.vendor] + [g.vendor] && [g.vendor] == [] + [g.vendor];
    assert Times(g, [g.vendor, g.vendor], []) == 2;
  }

  // ----- The loops ------------------------------------------------------------------------

  method FilterByVendors(gpus: seq<Gpu>, vendors: seq<string>) returns (r: seq<Gpu>)
    ensures r == Filtered(gpus, Vendor, vendors)
    ensures forall g :: Occurs(r, g) == Occurs(gpus, g) * Occurs(vendors, g.vendor)
  {
    r := [];
    for k := 0 to |gpus|
      invariant r == Filtered(gpus[..k], Vendor, vendors)
    {
      TakeNext(gpus, k);
      ghost var before := r;
      for j := 0 to |vendors|
        invariant r == before + Repeat(gpus[k], gpus[k].vendor, vendors[..j])
      {
        TakeNext(vendors, j);
        if gpus[k].vendor == vendors[j] { r := r + [gpus[k]]; }
      }
      assert vendors[..|vendors|] == vendors;
    }
    assert gpus[..|gpus|] == gpus;
    forall g ensures Occurs(r, g) == Occurs(gpus, g) * Occurs(vendors, g.vendor) {
      FilteredOccurs(gpus, Vendor, vendors, g);
    }
  }

  method FilterByDevices(gpus: seq<Gpu>, devices: seq<string>) returns (r: seq<Gpu>)
    ensures r == Filtered(gpus, Device, devices)
    ensures forall g :: Occurs(r, g) == Occurs(gpus, g) * Occurs(devices, g.device)
  {
    r := [];
    for k := 0 to |gpus|
      invariant r == Filtered(gpus[..k], Device, devices)
    {
      TakeNext(gpus, k);
      ghost var before := r;
      for j := 0 to |devices|
        invariant r == before + Repeat(gpus[k], gpus[k].device, devices[..j])
      {
        TakeNext(devices, j);
        if gpus[k].device == devices[j] { r := r + [gpus[k]]; }
      }
      assert devices[..|devices|] == devices;
    }
    assert gpus[..|gpus|] == gpus;
    forall g ensures Occurs(r, g) == Occurs(gpus, g) * Occurs(devices, g.device) {
      FilteredOccurs(gpus, Device, devices, g);
    }
  }
}
