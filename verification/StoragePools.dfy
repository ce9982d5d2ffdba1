/** Whether a node's storage pools can take a list of disks, each going to the pool with the
    most free space at its turn. Sizes are unsigned 64-bit numbers, and so is their difference:
    a pool of which more is used than there is counts as almost empty. */
module StoragePools {
  import Sorting
  import opened Sequences

  const WORD: nat := 0x1_0000_0000_0000_0000

  type Word = x: nat | x < WORD

  datatype Device = Ssd | Hdd

  datatype Pool = Pool(device: Device, size: Word, used: Word)
  {
    /** The difference wraps around when more is used than there is. */
    function Free(): Word { ((size - used) % WORD) as Word }

    predicate Sound() { used <= size }

    /** What is really left, less than nothing if more is used than there is. */
    function Room(): int { size - used }

    function Take(amount: Word): Pool { this.(used := ((used + amount) % WORD) as Word) }
  }

  lemma TakeIs(p: Pool, amount: Word)
    requires amount <= p.Free()
    ensures p.Take(amount).Free() == p.Free() - amount
  {
  }

  function OfDevice(pools: seq<Pool>, device: Device): seq<Pool>
    decreases |pools|
  {
    if pools == [] then []
    else
      var init, last := pools[..|pools| - 1], pools[|pools| - 1];
      OfDevice(init, device) + (if last.device == device then [last] else [])
  }

  /** The pools of the device are all there, as often as they were listed, and no other. */
  lemma {:induction false} OfDeviceCounts(pools: seq<Pool>, device: Device, p: Pool)
    ensures Occurs(OfDevice(pools, device), p) == if p.device == device then Occurs(pools, p) else 0
    decreases |pools|
  {
    if pools != [] {
      var k := |pools| - 1;
      OfDeviceCounts(pools[..k], device, p);
      OccursNext(OfDevice(pools[..k], device), pools[k], p);
      assert OfDevice(pools[..k], device) + [] == OfDevice(pools[..k], device);
    }
  }

  predicate IsEmptiest(pools: seq<Pool>, i: int) {
    0 <= i < |pools| && forall j | 0 <= j < |pools| :: pools[j].Free() <= pools[i].Free()
  }

  function Emptiest(pools: seq<Pool>): (r: nat)
    requires pools != []
    ensures IsEmptiest(pools, r)
    decreases |pools|
  {
    var k := |pools| - 1;
    if k == 0 then 0
    else
      var i := Emptiest(pools[..k]);
      assert forall j | 0 <= j < k :: pools[..k][j] == pools[j];
      if pools[k].Free() > pools[i].Free() then k else i
  }

  /** Disk after disk, each on an emptiest pool. */
  predicate Fits(pools: seq<Pool>, disks: seq<Word>)
    decreases |disks|
  {
    if disks == [] then true
    else if pools == [] then false
    else
      var i := Emptiest(pools);
      disks[0] <= pools[i].Free() && Fits(pools[i := pools[i].Take(disks[0])], disks[1..])
  }

  // ----- Counting pools -----------------------------------------------------------------

  /** How many pools have at least `t` free. */
  function Count(pools: seq<Pool>, t: nat): nat
    decreases |pools|
  {
    if pools == [] then 0
    else
      var init, last := pools[..|pools| - 1], pools[|pools| - 1];
      Count(init, t) + (if last.Free() >= t then 1 else 0)
  }

  /** At every size, at least as many pools have that much free. */
  ghost predicate Below(a: seq<Pool>, b: seq<Pool>) {
    forall t :: Count(a, t) <= Count(b, t)
  }

  lemma {:induction false} CountUpdate(pools: seq<Pool>, i: nat, p: Pool, t: nat)
    requires i < |pools|
    ensures Count(pools[i := p], t) + (if pools[i].Free() >= t then 1 else 0)
         == Count(pools, t) + (if p.Free() >= t then 1 else 0)
    decreases |pools|
  {
    var k := |pools| - 1;
    if i == k {
      assert pools[i := p][..k] == pools[..k];
    } else {
      assert pools[i := p][..k] == pools[..k][i := p];
      CountUpdate(pools[..k], i, p, t);
    }
  }

  lemma {:induction false} CountPositiveIff(pools: seq<Pool>, t: nat)
    ensures Count(pools, t) > 0 <==> exists j | 0 <= j < |pools| :: pools[j].Free() >= t
    decreases |pools|
  {
    if pools != [] {
      var k := |pools| - 1;
      CountPositiveIff(pools[..k], t);
      if j :| 0 <= j < |pools| && pools[j].Free() >= t && j < k { assert pools[..k][j] == pools[j]; }
      if j :| 0 <= j < k && pools[..k][j].Free() >= t { assert pools[j].Free() >= t; }
    }
  }

  lemma CountPositiveEmptiest(pools: seq<Pool>, i: nat, t: nat)
    requires IsEmptiest(pools, i)
    ensures Count(pools, t) > 0 <==> pools[i].Free() >= t
  {
    CountPositiveIff(pools, t);
  }

  lemma {:induction false} CountRemove(pools: seq<Pool>, i: nat, t: nat)
    requires i < |pools|
    ensures Count(pools, t) == Count(pools[..i] + pools[i + 1..], t) + (if pools[i].Free() >= t then 1 else 0)
    decreases |pools|
  {
    var k := |pools| - 1;
    if i < k {
      CountRemove(pools[..k], i, t);
      var rest := pools[..i] + pools[i + 1..];
      assert rest[..|rest| - 1] == pools[..k][..i] + pools[..k][i + 1..] && rest[|rest| - 1] == pools[k];
    } else {
      assert pools[..i] + pools[i + 1..] == pools[..k];
    }
  }

  lemma {:induction false} CountPermutes(a: seq<Pool>, b: seq<Pool>, t: nat)
    requires multiset(a) == multiset(b)
    ensures Count(a, t) == Count(b, t)
    decreases |a|
  {
    if a == [] {
      assert |multiset(b)| == 0;
    } else {
      var k := |a| - 1;
      assert a == a[..k] + [a[k]] && a[k] in multiset(b);
      var i :| 0 <= i < |b| && b[i] == a[k];
      CountRemove(b, i, t);
      SameWithout(a, b, i);
      CountPermutes(a[..k], b[..i] + b[i + 1..], t);
    }
  }

  lemma SameWithout(a: seq<Pool>, b: seq<Pool>, i: nat)
    requires multiset(a) == multiset(b) && a != [] && i < |b| && b[i] == a[|a| - 1]
    ensures multiset(a[..|a| - 1]) == multiset(b[..i] + b[i + 1..])
  {
    var rest := b[..i] + b[i + 1..];
    assert a == a[..|a| - 1] + [b[i]];
    assert b == b[..i] + [b[i]] + b[i + 1..];
    assert multiset(rest) + multiset{b[i]} == multiset(b) == multiset(a[..|a| - 1]) + multiset{b[i]};
    forall p ensures multiset(a[..|a| - 1])[p] == multiset(rest)[p] {
      assert (multiset(rest) + multiset{b[i]})[p] == (multiset(a[..|a| - 1]) + multiset{b[i]})[p];
    }
  }

  // ----- More room is never worse ----------------------------------------------------------

  /** Putting the same disk on an emptiest pool of either side keeps the order of the sides. */
  lemma TakeKeepsBelow(a: seq<Pool>, b: seq<Pool>, i: nat, j: nat, disk: Word)
    requires Below(a, b) && IsEmptiest(a, i) && b != [] && IsEmptiest(b, j) && disk <= a[i].Free()
    ensures disk <= b[j].Free() && Below(a[i := a[i].Take(disk)], b[j := b[j].Take(disk)])
  {
    CountPositiveEmptiest(a, i, a[i].Free());
    CountPositiveEmptiest(b, j, a[i].Free());
    assert Count(a, a[i].Free()) <= Count(b, a[i].Free());
    TakeIs(a[i], disk);
    TakeIs(b[j], disk);
    var left, right := a[i := a[i].Take(disk)], b[j := b[j].Take(disk)];
    forall t: nat ensures Count(left, t) <= Count(right, t) {
      CountUpdate(a, i, a[i].Take(disk), t);
      CountUpdate(b, j, b[j].Take(disk), t);
      CountPositiveEmptiest(a, i, t);
      assert Count(a, t) <= Count(b, t);
    }
  }

  /** Pools that are emptier, size by size, take whatever the others take. */
  lemma {:induction false} FitsMonotone(a: seq<Pool>, b: seq<Pool>, disks: seq<Word>)
    requires Below(a, b) && Fits(a, disks)
    ensures Fits(b, disks)
    decreases |disks|
  {
    if disks != [] {
      var i := Emptiest(a);
      CountPositiveEmptiest(a, i, 0);
      assert Count(a, 0) <= Count(b, 0);
      var j := Emptiest(b);
      TakeKeepsBelow(a, b, i, j, disks[0]);
      FitsMonotone(a[i := a[i].Take(disks[0])], b[j := b[j].Take(disks[0])], disks[1..]);
    }
  }

  lemma FreerStillFits(pools: seq<Pool>, disks: seq<Word>, i: nat, p: Pool)
    requires Fits(pools, disks) && i < |pools| && pools[i].Free() <= p.Free()
    ensures Fits(pools[i := p], disks)
  {
    forall t: nat ensures Count(pools, t) <= Count(pools[i := p], t) { CountUpdate(pools, i, p, t); }
    FitsMonotone(pools, pools[i := p], disks);
  }

  /** Another pool never turns a yes into a no. */
  lemma AnotherPoolStillFits(pools: seq<Pool>, disks: seq<Word>, p: Pool)
    requires Fits(pools, disks)
    ensures Fits(pools + [p], disks)
  {
    forall t: nat ensures Count(pools, t) <= Count(pools + [p], t) {
      assert (pools + [p])[..|pools|] == pools;
    }
    FitsMonotone(pools, pools + [p], disks);
  }

  /** The answer does not depend on the order of the pools. */
  lemma OrderIsImmaterial(a: seq<Pool>, b: seq<Pool>, disks: seq<Word>)
    requires multiset(a) == multiset(b)
    ensures Fits(a, disks) <==> Fits(b, disks)
  {
    forall t: nat ensures Count(a, t) == Count(b, t) { CountPermutes(a, b, t); }
    if Fits(a, disks) { FitsMonotone(a, b, disks); }
    if Fits(b, disks) { FitsMonotone(b, a, disks); }
  }

  /** Nor on which of several emptiest pools takes a disk. */
  lemma TiesAreImmaterial(pools: seq<Pool>, i: nat, disks: seq<Word>)
    requires disks != [] && IsEmptiest(pools, i)
    ensures Fits(pools, disks) <==> disks[0] <= pools[i].Free() && Fits(pools[i := pools[i].Take(disks[0])], disks[1..])
  {
    var j := Emptiest(pools);
    assert pools[i].Free() == pools[j].Free();
    if disks[0] <= pools[i].Free() {
      var a, b := pools[i := pools[i].Take(disks[0])], pools[j := pools[j].Take(disks[0])];
      TakeKeepsBelow(pools, pools, i, j, disks[0]);
      TakeKeepsBelow(pools, pools, j, i, disks[0]);
      if Fits(a, disks[1..]) { FitsMonotone(a, b, disks[1..]); }
      if Fits(b, disks[1..]) { FitsMonotone(b, a, disks[1..]); }
    }
  }

  // ----- What a yes means --------------------------------------------------------------------

  /** What a placement puts on pool `i`. */
  function Load(place: seq<nat>, disks: seq<Word>, i: nat): nat
    requires |place| == |disks|
    decreases |disks|
  {
    if disks == [] then 0
    else (if place[0] == i then disks[0] else 0) + Load(place[1..], disks[1..], i)
  }

  /** Every disk is on some pool, and no pool has more than its free space. */
  ghost predicate Places(place: seq<nat>, pools: seq<Pool>, disks: seq<Word>) {
    && |place| == |disks| && (forall k | 0 <= k < |place| :: place[k] < |pools|)
    && forall i | 0 <= i < |pools| :: Load(place, disks, i) <= pools[i].Free()
  }

  /** A yes comes with a placement. */
  lemma {:induction false} FitsPlaces(pools: seq<Pool>, disks: seq<Word>) returns (place: seq<nat>)
    requires Fits(pools, disks)
    ensures Places(place, pools, disks)
    decreases |disks|
  {
    if disks == [] {
      place := [];
    } else {
      var i := Emptiest(pools);
      var after := pools[i := pools[i].Take(disks[0])];
      TakeIs(pools[i], disks[0]);
      var rest := FitsPlaces(after, disks[1..]);
      place := [i] + rest;
      assert place[1..] == rest;
      forall p | 0 <= p < |pools| ensures Load(place, disks, p) <= pools[p].Free() {
        assert Load(rest, disks[1..], p) <= after[p].Free();
      }
    }
  }

  // ----- When a no is final ------------------------------------------------------------------

  /** How many disks of size `d` go into `free`. */
  function Slots(free: nat, d: nat): nat {
    if d == 0 then 1 else free / d
  }

  /** How many disks of size `d` go into the pools. */
  function AllSlots(pools: seq<Pool>, d: nat): nat
    decreases |pools|
  {
    if pools == [] then 0 else AllSlots(pools[..|pools| - 1], d) + Slots(pools[|pools| - 1].Free(), d)
  }

  predicate Divides(e: nat, d: nat) {
    e == 0 || d % e == 0
  }

  /** Every disk is a multiple of each later one, as when all have one size. */
  predicate Nested(disks: seq<Word>) {
    forall j, k | 0 <= j < k < |disks| :: Divides(disks[k], disks[j])
  }

  lemma {:induction false} AllSlotsUpdate(pools: seq<Pool>, i: nat, p: Pool, d: nat)
    requires i < |pools|
    ensures AllSlots(pools[i := p], d) + Slots(pools[i].Free(), d) == AllSlots(pools, d) + Slots(p.Free(), d)
    decreases |pools|
  {
    var k := |pools| - 1;
    if i == k {
      assert pools[i := p][..k] == pools[..k];
    } else {
      assert pools[i := p][..k] == pools[..k][i := p];
      AllSlotsUpdate(pools[..k], i, p, d);
    }
  }

  lemma {:induction false} NoSlots(pools: seq<Pool>, d: nat)
    ensures AllSlots(pools, d) > 0 <==> exists i | 0 <= i < |pools| :: d <= pools[i].Free()
    decreases |pools|
  {
    if pools != [] {
      var k := |pools| - 1;
      NoSlots(pools[..k], d);
      assert Slots(pools[k].Free(), d) > 0 <==> d <= pools[k].Free() by { SlotsPositive(pools[k].Free(), d); }
      assert forall i | 0 <= i < k :: pools[..k][i] == pools[i];
    }
  }

  lemma SlotsPositive(free: nat, d: nat)
    ensures Slots(free, d) > 0 <==> d <= free
  {
    if d > 0 && d <= free { assert free / d >= 1; }
  }

  /** A disk takes as many smaller slots as it has room for, wherever it goes. */
  lemma SlotsOfDisk(free: nat, d: nat, e: nat)
    requires d <= free && Divides(e, d)
    ensures Slots(free - d, e) == Slots(free, e) - (if e == 0 then 0 else d / e)
  {
    if e > 0 {
      var q := d / e;
      assert d == q * e;
      assert free == (free / e) * e + free % e;
      assert free - d == (free / e - q) * e + free % e;
      DivisionIsUnique(free - d, e, free / e - q, free % e);
    }
  }

  lemma DivisionIsUnique(n: nat, e: nat, q: int, r: nat)
    requires n == q * e + r && r < e
    ensures n / e == q
  {
    var k: int, size: int := n / e - q, e;
    assert n == (n / e) * e + n % e;
    assert k * size == r - n % e;
    assert k > 0 ==> k * size >= size;
    assert k < 0 ==> k * size <= -size;
  }

  lemma TakeSlots(pools: seq<Pool>, i: nat, d: Word, e: Word)
    requires i < |pools| && d <= pools[i].Free() && Divides(e, d)
    ensures AllSlots(pools[i := pools[i].Take(d)], e) == AllSlots(pools, e) - (if e == 0 then 0 else d / e)
  {
    TakeIs(pools[i], d);
    AllSlotsUpdate(pools, i, pools[i].Take(d), e);
    SlotsOfDisk(pools[i].Free(), d, e);
  }

  /** Where one choice of pools has a placement, pools with as many slots of each disk's size
      take the disks one by one. */
  lemma {:induction false} SlotsDecide(place: seq<nat>, a: seq<Pool>, b: seq<Pool>, disks: seq<Word>)
    requires Nested(disks) && Places(place, a, disks)
    requires forall k | 0 <= k < |disks| :: AllSlots(a, disks[k]) <= AllSlots(b, disks[k])
    ensures Fits(b, disks)
    decreases |disks|
  {
    if disks != [] {
      var d, i := disks[0], place[0];
      PlacesRest(place, a, disks);
      NoSlots(a, d);
      NoSlots(b, d);
      var j := Emptiest(b);
      var restA, restB := a[i := a[i].Take(d)], b[j := b[j].Take(d)];
      forall k | 0 <= k < |disks| - 1 ensures AllSlots(restA, disks[1..][k]) <= AllSlots(restB, disks[1..][k]) {
        var e := disks[k + 1];
        assert AllSlots(a, e) <= AllSlots(b, e);
        TakeSlots(a, i, d, e);
        TakeSlots(b, j, d, e);
      }
      SlotsDecide(place[1..], restA, restB, disks[1..]);
    }
  }

  /** What is left of a placement once its first disk is on its pool. */
  lemma PlacesRest(place: seq<nat>, pools: seq<Pool>, disks: seq<Word>)
    requires disks != [] && Places(place, pools, disks)
    ensures place[0] < |pools| && disks[0] <= pools[place[0]].Free()
    ensures Places(place[1..], pools[place[0] := pools[place[0]].Take(disks[0])], disks[1..])
  {
    var i := place[0];
    assert Load(place, disks, i) <= pools[i].Free();
    TakeIs(pools[i], disks[0]);
    var after := pools[i := pools[i].Take(disks[0])];
    forall p | 0 <= p < |after| ensures Load(place[1..], disks[1..], p) <= after[p].Free() {
      assert Load(place, disks, p) <= pools[p].Free();
    }
  }

  lemma NestedFitPlaces(pools: seq<Pool>, disks: seq<Word>)
    requires Nested(disks)
    ensures Fits(pools, disks) <==> exists place :: Places(place, pools, disks)
  {
    if Fits(pools, disks) { var place := FitsPlaces(pools, disks); }
    if place :| Places(place, pools, disks) { SlotsDecide(place, pools, pools, disks); }
  }

  function Total(disks: seq<Word>): nat
    decreases |disks|
  {
    if disks == [] then 0 else disks[0] + Total(disks[1..])
  }

  lemma {:induction false} FreeIsEnough(pools: seq<Pool>, disks: seq<Word>, i: nat)
    requires i < |pools| && Total(disks) <= pools[i].Free()
    ensures Fits(pools, disks)
    decreases |disks|
  {
    if disks != [] {
      var j := Emptiest(pools);
      TakeIs(pools[j], disks[0]);
      FreeIsEnough(pools[j := pools[j].Take(disks[0])], disks[1..], i);
    }
  }

  /** Disks that together fit what is left of one pool always get a yes. */
  lemma OnePoolIsEnough(pools: seq<Pool>, disks: seq<Word>, i: nat)
    requires i < |pools| && pools[i].used + Total(disks) <= pools[i].size
    ensures Fits(pools, disks)
  {
    FreeIsEnough(pools, disks, i);
  }

  /** Otherwise a no is not final: disks of 4 and 5 could go to pools with 4 and 5 free, but
      the first takes the larger pool. */
  lemma NoCanStillBePlaced()
    ensures var pools, disks := [Pool(Ssd, 5, 0), Pool(Ssd, 4, 0)], [4, 5];
            !Fits(pools, disks) && Places([1, 0], pools, disks)
  {
  }

  // ----- Sizes and use ------------------------------------------------------------------------

  predicate AllSound(pools: seq<Pool>) {
    forall i | 0 <= i < |pools| :: pools[i].Sound()
  }

  /** Every disk is on some pool, and with its disks no pool is used beyond its size. */
  ghost predicate PlacesWithin(place: seq<nat>, pools: seq<Pool>, disks: seq<Word>) {
    && |place| == |disks| && (forall k | 0 <= k < |place| :: place[k] < |pools|)
    && forall i | 0 <= i < |pools| :: pools[i].used + Load(place, disks, i) <= pools[i].size
  }

  ghost predicate Placeable(pools: seq<Pool>, disks: seq<Word>) {
    exists place :: PlacesWithin(place, pools, disks)
  }

  lemma WithinIsSound(place: seq<nat>, pools: seq<Pool>, disks: seq<Word>)
    ensures PlacesWithin(place, pools, disks) <==> AllSound(pools) && Places(place, pools, disks)
  {
    if PlacesWithin(place, pools, disks) {
      forall i | 0 <= i < |pools| ensures pools[i].Sound() && Load(place, disks, i) <= pools[i].Free() {
        assert pools[i].used + Load(place, disks, i) <= pools[i].size;
      }
    }
    if AllSound(pools) && Places(place, pools, disks) {
      forall i | 0 <= i < |pools| ensures pools[i].used + Load(place, disks, i) <= pools[i].size {
        assert pools[i].Sound() && Load(place, disks, i) <= pools[i].Free();
      }
    }
  }

  /** A yes means that the disks can be placed within the sizes exactly when no pool is used
      beyond its size to begin with. */
  lemma YesIsPlaceableIff(pools: seq<Pool>, disks: seq<Word>)
    requires Fits(pools, disks)
    ensures Placeable(pools, disks) <==> AllSound(pools)
  {
    var place := FitsPlaces(pools, disks);
    WithinIsSound(place, pools, disks);
    if other :| PlacesWithin(other, pools, disks) { WithinIsSound(other, pools, disks); }
  }

  /** For disks each a multiple of the later ones the answer is exact as long as no pool is used
      beyond its size. */
  lemma NestedFitIff(pools: seq<Pool>, disks: seq<Word>)
    requires Nested(disks)
    ensures Placeable(pools, disks) <==> AllSound(pools) && Fits(pools, disks)
  {
    NestedFitPlaces(pools, disks);
    if place :| PlacesWithin(place, pools, disks) { WithinIsSound(place, pools, disks); }
    if Fits(pools, disks) { YesIsPlaceableIff(pools, disks); }
  }

  /** A pool used beyond its size gets a yes for any disks up to 2^64 less the excess. */
  lemma OverusedTakesAll(pools: seq<Pool>, disks: seq<Word>, i: nat)
    requires i < |pools| && !pools[i].Sound() && Total(disks) + (pools[i].used - pools[i].size) <= WORD
    ensures Fits(pools, disks)
  {
    OverusedFree(pools[i]);
    FreeIsEnough(pools, disks, i);
  }

  lemma OverusedFree(p: Pool)
    requires !p.Sound()
    ensures p.Free() == p.Room() + WORD
  {
  }

  lemma FreeRoom(p: Pool)
    ensures p.Free() == if p.Sound() then p.Room() else p.Room() + WORD
  {
    if p.Sound() {
      assert p.Free() == p.size - p.used;
    } else {
      OverusedFree(p);
    }
  }

  /** Every yes of `a` is a yes of `b`. */
  ghost predicate KeepsEveryYes(a: seq<Pool>, b: seq<Pool>) {
    forall disks | Fits(a, disks) :: Fits(b, disks)
  }

  /** Disks that fit take no more than all that is free. */
  lemma {:induction false} FitsTotal(pools: seq<Pool>, disks: seq<Word>)
    requires Fits(pools, disks)
    ensures Total(disks) <= AllSlots(pools, 1)
    decreases |disks|
  {
    if disks != [] {
      var i := Emptiest(pools);
      TakeSlots(pools, i, disks[0], 1);
      FitsTotal(pools[i := pools[i].Take(disks[0])], disks[1..]);
    }
  }

  /** Some disks take all that is free. */
  lemma {:induction false} FillsUp(pools: seq<Pool>) returns (disks: seq<Word>)
    ensures Fits(pools, disks) && Total(disks) == AllSlots(pools, 1)
    decreases AllSlots(pools, 1)
  {
    NoSlots(pools, 1);
    if AllSlots(pools, 1) == 0 {
      disks := [];
    } else {
      var i := Emptiest(pools);
      var free := pools[i].Free();
      TakeSlots(pools, i, free, 1);
      var rest := FillsUp(pools[i := pools[i].Take(free)]);
      disks := [free] + rest;
      assert disks[1..] == rest;
    }
  }

  lemma KeepsEveryYesIff(pools: seq<Pool>, i: nat, p: Pool)
    requires i < |pools|
    ensures KeepsEveryYes(pools, pools[i := p]) <==> pools[i].Free() <= p.Free()
  {
    if pools[i].Free() <= p.Free() {
      forall disks | Fits(pools, disks) ensures Fits(pools[i := p], disks) { FreerStillFits(pools, disks, i, p); }
    } else {
      var disks := FillsUp(pools);
      AllSlotsUpdate(pools, i, p, 1);
      if Fits(pools[i := p], disks) { FitsTotal(pools[i := p], disks); }
    }
  }

  /** Giving a pool more room, by size or by use, turns no yes into a no exactly when the pool
      was not used beyond its size, or still is, or the gain is 2^64 and more. */
  lemma MoreRoomStillFitsIff(pools: seq<Pool>, i: nat, p: Pool)
    requires i < |pools| && pools[i].Room() <= p.Room()
    ensures KeepsEveryYes(pools, pools[i := p]) <==>
              pools[i].Sound() || !p.Sound() || p.Room() - pools[i].Room() >= WORD
  {
    KeepsEveryYesIff(pools, i, p);
    FreeRoom(pools[i]);
    FreeRoom(p);
  }

  /** A pool of 5 with 6 used gets a yes for a disk that it cannot hold, and a no once it is
      enlarged to 6. */
  lemma OverusedSaysYes()
    ensures Fits([Pool(Ssd, 5, 6)], [1]) && !Placeable([Pool(Ssd, 5, 6)], [1])
    ensures !Fits([Pool(Ssd, 6, 6)], [1])
  {
    var pools := [Pool(Ssd, 5, 6)];
    assert Total([1]) == 1 by { assert [1][1..] == []; }
    OverusedTakesAll(pools, [1], 0);
    YesIsPlaceableIff(pools, [1]);
    assert !pools[0].Sound();
    assert Pool(Ssd, 6, 6).Free() == 0;
  }

  // ----- The check ---------------------------------------------------------------------------

  method HasEnoughStorage(pools: seq<Pool>, disks: seq<Word>, device: Device) returns (ok: bool)
    ensures ok <==> Fits(OfDevice(pools, device), disks)
  {
    if |disks| == 0 { return true; }
    var filtered: seq<Pool> := [];
    for k := 0 to |pools|
      invariant filtered == OfDevice(pools[..k], device)
    {
      assert pools[..k + 1][..k] == pools[..k];
      if pools[k].device == device { filtered := filtered + [pools[k]]; }
    }
    assert pools[..|pools|] == pools;
    if |filtered| == 0 { return false; }
    var a := new Pool[|filtered|](i requires 0 <= i < |filtered| => filtered[i]);
    assert a[..] == filtered;
    for k := 0 to |disks|
      invariant Fits(filtered, disks) <==> Fits(a[..], disks[k..])
    {
      ghost var before := a[..];
      Sorting.SortBy(a, (p: Pool) => -(p.Free() as int));
      OrderIsImmaterial(before, a[..], disks[k..]);
      assert IsEmptiest(a[..], 0);
      TiesAreImmaterial(a[..], 0, disks[k..]);
      if a[0].Free() < disks[k] { return false; }
      ghost var sorted := a[..];
      a[0] := a[0].Take(disks[k]);
      assert a[..] == sorted[0 := sorted[0].Take(disks[k])] && disks[k..][1..] == disks[k + 1..];
    }
    return true;
  }
}
