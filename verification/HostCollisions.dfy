/** When the machines of a batch end up with host ids of their own. An address that a machine
    asks for is given even if its host id was given on the same place before, so host ids, and
    with them the addresses in a subnet, can repeat; whether they will can be told from the
    requests alone. */
module HostCollisions {
  import opened Wrappers
  import opened Addresses
  import opened HostIds

  ghost predicate HostsDiffer(requests: seq<Request>, ips: seq<Option<Addr>>)
    requires |ips| == |requests|
  {
    forall i, j | 0 <= i < j < |ips| && requests[i].place == requests[j].place && ips[i].Some? && ips[j].Some? ::
      ips[i].value.d != ips[j].value.d
  }

  /** What a request at the end of a run is given. */
  function IpAfter(requests: seq<Request>, used: Used, r: Request): Option<Addr> {
    Give(At(Run(requests, used).used, r.place), r).ip
  }

  /** The run gives host `h` on `p`. */
  predicate Gives(requests: seq<Request>, used: Used, p: Place, h: int)
    decreases |requests|
  {
    requests != [] &&
      var init, r := requests[..|requests| - 1], requests[|requests| - 1];
      Gives(init, used, p, h) || (r.place == p && IpAfter(init, used, r).Some? && IpAfter(init, used, r).value.d == h)
  }

  lemma {:induction false} GivesIff(requests: seq<Request>, used: Used, p: Place, h: Octet)
    ensures |Run(requests, used).ips| == |requests|
    ensures Gives(requests, used, p, h) <==> GivenBefore(requests, Run(requests, used).ips, |requests|, p, h)
    decreases |requests|
  {
    RunLength(requests, used);
    if requests != [] {
      var k := |requests| - 1;
      RunLength(requests[..k], used);
      GivesIff(requests[..k], used, p, h);
      GivenNext(requests, Run(requests[..k], used).ips, IpAfter(requests[..k], used, requests[k]), p, h);
    }
  }

  lemma TakenIff(requests: seq<Request>, used: Used, p: Place, h: Octet)
    ensures h in At(Run(requests, used).used, p) <==> h in At(used, p) || Gives(requests, used, p, h)
  {
    TakenIs(requests, used, p, h);
    GivesIff(requests, used, p, h);
  }

  // ----- At its turn ----------------------------------------------------------------------

  /** No address asked for has, at its turn, a host id already given there. */
  predicate NoneRepeats(requests: seq<Request>, used: Used)
    decreases |requests|
  {
    requests == [] ||
      var init, r := requests[..|requests| - 1], requests[|requests| - 1];
      NoneRepeats(init, used) && (r.preset.Some? ==> !Gives(init, used, r.place, r.preset.value.d))
  }

  /** A request repeats a host id that was given exactly when it asks for it. */
  lemma LastRepeatsIff(requests: seq<Request>, used: Used, r: Request)
    ensures var ip := IpAfter(requests, used, r);
            (ip.Some? && Gives(requests, used, r.place, ip.value.d)) <==>
              (r.preset.Some? && Gives(requests, used, r.place, r.preset.value.d))
  {
    var ip := IpAfter(requests, used, r);
    if r.preset.Some? {
      TakenIff(requests, used, r.place, r.preset.value.d);
    } else if ip.Some? {
      TakenIff(requests, used, r.place, ip.value.d);
    }
  }

  lemma HostsDifferNext(requests: seq<Request>, ips: seq<Option<Addr>>, r: Request, ip: Option<Addr>)
    requires |ips| == |requests|
    ensures HostsDiffer(requests + [r], ips + [ip]) <==>
              HostsDiffer(requests, ips) && (ip.Some? ==> !GivenBefore(requests, ips, |requests|, r.place, ip.value.d))
  {
    var rs, all := requests + [r], ips + [ip];
    assert forall i | 0 <= i < |ips| :: rs[i] == requests[i] && all[i] == ips[i];
    assert rs[|ips|] == r && all[|ips|] == ip;
  }

  /** Host ids differ exactly when no address asked for repeats one at its turn. */
  lemma {:induction false} HostsDifferUnlessRepeated(requests: seq<Request>, used: Used)
    ensures |Run(requests, used).ips| == |requests|
    ensures HostsDiffer(requests, Run(requests, used).ips) <==> NoneRepeats(requests, used)
    decreases |requests|
  {
    RunLength(requests, used);
    if requests != [] {
      var k := |requests| - 1;
      var init, r := requests[..k], requests[k];
      var ips, ip := Run(init, used).ips, IpAfter(init, used, r);
      HostsDifferUnlessRepeated(init, used);
      HostsDifferNext(init, ips, r, ip);
      assert init + [r] == requests && Run(requests, used).ips == ips + [ip];
      LastRepeatsIff(init, used, r);
      if ip.Some? { GivesIff(init, used, r.place, ip.value.d); }
    }
  }

  // ----- From the requests alone ----------------------------------------------------------

  /** The machine asks for an address in its subnet, or for one in use already. */
  predicate Acceptable(used: Used, r: Request) {
    r.preset.Some? && (Contains(r.range, r.preset.value) || r.preset.value.d in At(used, r.place))
  }

  /** Some machine on `p` asks for host `h`. */
  predicate Asked(requests: seq<Request>, used: Used, p: Place, h: int)
    decreases |requests|
  {
    requests != [] &&
      var init, r := requests[..|requests| - 1], requests[|requests| - 1];
      Asked(init, used, p, h) || (r.place == p && Acceptable(used, r) && r.preset.value.d == h)
  }

  /** How many machines on `p` ask for nothing. */
  function Automatic(requests: seq<Request>, p: Place): nat
    decreases |requests|
  {
    if requests == [] then 0
    else
      var init, r := requests[..|requests| - 1], requests[|requests| - 1];
      Automatic(init, p) + (if r.place == p && r.preset.None? then 1 else 0)
  }

  /** The host ids below `h` left for the machines that ask for nothing. */
  function Room(requests: seq<Request>, used: Used, p: Place, h: int): set<int> {
    set x | FIRST <= x < h && x !in At(used, p) && !Asked(requests, used, p, x)
  }

  /** Whether host `h` is still to be had on `p`: nobody asked for it, and the machines that
      ask for nothing have room below it, unless it is none they are given. */
  predicate StillFree(requests: seq<Request>, used: Used, p: Place, h: int) {
    && !Asked(requests, used, p, h)
    && (FIRST <= h <= LAST && h !in At(used, p) ==> Automatic(requests, p) <= |Room(requests, used, p, h)|)
  }

  /** Every address asked for is still free after the requests before it. */
  predicate Foreseen(requests: seq<Request>, used: Used)
    decreases |requests|
  {
    requests == [] ||
      var init, r := requests[..|requests| - 1], requests[|requests| - 1];
      Foreseen(init, used) && (r.preset.Some? ==> StillFree(init, used, r.place, r.preset.value.d))
  }

  lemma {:induction false} AskedIsGiven(requests: seq<Request>, used: Used, p: Place, h: Octet)
    requires Asked(requests, used, p, h)
    ensures Gives(requests, used, p, h)
    decreases |requests|
  {
    var init := requests[..|requests| - 1];
    if Asked(init, used, p, h) {
      AskedIsGiven(init, used, p, h);
    } else {
      TakenIff(init, used, p, h);
    }
  }

  /** What nobody asked for is given automatically or not at all. */
  lemma {:induction false} UnaskedIsAutomatic(requests: seq<Request>, used: Used, p: Place, h: Octet)
    requires Gives(requests, used, p, h) && !Asked(requests, used, p, h)
    ensures FIRST <= h <= LAST && h !in At(used, p)
    decreases |requests|
  {
    var init, r := requests[..|requests| - 1], requests[|requests| - 1];
    if Gives(init, used, p, h) {
      UnaskedIsAutomatic(init, used, p, h);
    } else {
      TakenIff(init, used, p, h);
    }
  }

  /** The free host ids below `h`. */
  function Below(taken: seq<Octet>, h: int): set<int> {
    set x | FIRST <= x < h && x !in taken
  }

  lemma Shrinks(a: set<int>, b: set<int>, x: int)
    requires b == a - {x}
    ensures |b| == |a| - (if x in a then 1 else 0)
  {
    if x !in a { assert b == a; }
  }

  /** A machine that asks takes one host id from the free ones and from the room alike. */
  lemma AskingKeepsCount(init: seq<Request>, used: Used, r: Request, h: Octet)
    requires r.preset.Some? && !Gives(init, used, r.place, r.preset.value.d)
    requires !Asked(init + [r], used, r.place, h)
    ensures var p := r.place;
            var before, after := At(Run(init, used).used, p), At(Run(init + [r], used).used, p);
            && (h in after <==> h in before)
            && |Room(init + [r], used, p, h)| <= |Room(init, used, p, h)|
            && |Room(init + [r], used, p, h)| + |Below(before, h)| == |Room(init, used, p, h)| + |Below(after, h)|
  {
    var p, x, all := r.place, r.preset.value.d, init + [r];
    assert all[..|init|] == init;
    TakenIff(init, used, p, x);
    if Asked(init, used, p, x) { AskedIsGiven(init, used, p, x); }
    var before, after := At(Run(init, used).used, p), At(Run(all, used).used, p);
    if Acceptable(used, r) && x !in At(used, p) {
      assert after == before + [x];
      assert Below(after, h) == Below(before, h) - {x as int};
      assert Room(all, used, p, h) == Room(init, used, p, h) - {x as int};
      Shrinks(Below(before, h), Below(after, h), x);
      Shrinks(Room(init, used, p, h), Room(all, used, p, h), x);
    } else {
      assert after == before;
      assert Room(all, used, p, h) == Room(init, used, p, h);
    }
  }

  /** A machine that does not ask takes the lowest free host id. */
  lemma ChoosingTakes(init: seq<Request>, used: Used, r: Request) returns (x: Octet)
    requires r.preset.None? && !Exhausted(At(Run(init, used).used, r.place))
    ensures var before := At(Run(init, used).used, r.place);
            FirstFree(before, FIRST) == Some(x) && At(Run(init + [r], used).used, r.place) == before + [x]
  {
    assert (init + [r])[..|init|] == init;
    FirstFreeFailsIff(At(Run(init, used).used, r.place));
    x := FirstFree(At(Run(init, used).used, r.place), FIRST).value;
  }

  lemma ChoosingKeepsRoom(init: seq<Request>, used: Used, r: Request, p: Place, h: Octet)
    requires r.preset.None?
    ensures Room(init + [r], used, p, h) == Room(init, used, p, h)
  {
    assert (init + [r])[..|init|] == init;
  }

  lemma ChoosingCounts(init: seq<Request>, used: Used, r: Request, h: Octet)
    requires r.preset.None? && FIRST <= h <= LAST && h !in At(Run(init, used).used, r.place)
    ensures var p := r.place;
            var before, after := At(Run(init, used).used, p), At(Run(init + [r], used).used, p);
            && Room(init + [r], used, p, h) == Room(init, used, p, h)
            && if h in after then Below(before, h) == {} else |Below(after, h)| == |Below(before, h)| - 1
  {
    var before := At(Run(init, used).used, r.place);
    var x := ChoosingTakes(init, used, r);
    ChoosingKeepsRoom(init, used, r, r.place, h);
    LowestBelow(before, h, x);
    Shrinks(Below(before, h), Below(before + [x], h), x);
  }

  lemma LowestBelow(taken: seq<Octet>, h: Octet, x: Octet)
    requires FirstFree(taken, FIRST) == Some(x) && h !in taken && FIRST <= h <= LAST
    ensures x <= h && (x == h ==> Below(taken, h) == {})
  {
    LowestFree(taken, FIRST, x);
  }

  lemma {:induction false} LowestFree(taken: seq<Octet>, from: Octet, x: Octet)
    requires from <= LAST && FirstFree(taken, from) == Some(x)
    ensures forall y: Octet | from <= y < x :: y in taken
    decreases LAST - from
  {
    if from in taken && from < LAST { LowestFree(taken, from + 1, x); }
  }

  /** As long as no address asked for repeats one, the machines that do not ask fill the room
      from below: a host id is reached once they are more than the room below it. */
  lemma {:induction false} ReachedIff(requests: seq<Request>, used: Used, p: Place, h: Octet)
    requires NoneRepeats(requests, used) && FIRST <= h <= LAST && h !in At(used, p) && !Asked(requests, used, p, h)
    ensures var taken, room := At(Run(requests, used).used, p), |Room(requests, used, p, h)|;
            if h in taken then Automatic(requests, p) > room
            else Automatic(requests, p) + |Below(taken, h)| == room
    decreases |requests|
  {
    if requests == [] {
      assert Room([], used, p, h) == Below(At(used, p), h);
    } else {
      var init, r := requests[..|requests| - 1], requests[|requests| - 1];
      assert init + [r] == requests;
      ReachedIff(init, used, p, h);
      if r.place != p {
        assert Room(requests, used, p, h) == Room(init, used, p, h);
      } else if r.preset.Some? {
        AskingKeepsCount(init, used, r, h);
      } else {
        assert Room(requests, used, p, h) == Room(init, used, p, h);
        if h !in At(Run(init, used).used, p) { ChoosingCounts(init, used, r, h); }
      }
    }
  }

  lemma StillFreeIff(requests: seq<Request>, used: Used, p: Place, h: Octet)
    requires NoneRepeats(requests, used)
    ensures StillFree(requests, used, p, h) <==> !Gives(requests, used, p, h)
  {
    if Asked(requests, used, p, h) {
      AskedIsGiven(requests, used, p, h);
    } else if FIRST <= h <= LAST && h !in At(used, p) {
      ReachedIff(requests, used, p, h);
      TakenIff(requests, used, p, h);
    } else if Gives(requests, used, p, h) {
      UnaskedIsAutomatic(requests, used, p, h);
    }
  }

  lemma {:induction false} ForeseenIff(requests: seq<Request>, used: Used)
    ensures Foreseen(requests, used) <==> NoneRepeats(requests, used)
    decreases |requests|
  {
    if requests != [] {
      var init, r := requests[..|requests| - 1], requests[|requests| - 1];
      ForeseenIff(init, used);
      if NoneRepeats(init, used) && r.preset.Some? { StillFreeIff(init, used, r.place, r.preset.value.d); }
    }
  }

  /** The host ids given on each place differ pairwise exactly when every address asked for is
      still free by the count of the requests before it. */
  lemma HostsDifferIff(requests: seq<Request>, used: Used)
    ensures |Run(requests, used).ips| == |requests|
    ensures HostsDiffer(requests, Run(requests, used).ips) <==> Foreseen(requests, used)
  {
    HostsDifferUnlessRepeated(requests, used);
    ForeseenIff(requests, used);
  }
}
