/** Routers that dispatch a dotted route: each has handlers by name, sub-routers by prefix, and
    middlewares that every call through it passes first. Routers refer to each other by their
    place in a table, so that a sub-router handed out is the one its parent holds. */
module Routes {
  import opened Wrappers

  type HandlerId = nat
  type MiddlewareId = nat

  datatype Router = Router(handlers: map<string, HandlerId>, routes: map<string, nat>, middlewares: seq<MiddlewareId>)

  const NEW_ROUTER := Router(map[], map[], [])

  predicate HasDot(s: string) { '.' in s }

  /** Sub-routers are made after the routers that hold them, and no prefix has a dot. */
  predicate Valid(table: seq<Router>) {
    forall i | 0 <= i < |table| :: ValidAt(table, i)
  }

  predicate ValidAt(table: seq<Router>, i: nat)
    requires i < |table|
  {
    forall k | k in table[i].routes :: i < table[i].routes[k] < |table| && !HasDot(k)
  }

  // ----- Splitting a route --------------------------------------------------------------

  function FirstDot(s: string): (r: nat)
    ensures r <= |s| && !HasDot(s[..r]) && (r < |s| ==> s[r] == '.')
    decreases |s|
  {
    if s == "" || s[0] == '.' then 0
    else
      var r := FirstDot(s[1..]);
      assert s[..r + 1] == [s[0]] + s[1..][..r];
      r + 1
  }

  function Key(s: string): string { s[..FirstDot(s)] }

  /** What follows the first dot; nothing if there is none. */
  function Rest(s: string): string {
    if FirstDot(s) < |s| then s[FirstDot(s) + 1..] else ""
  }

  lemma {:induction false} FirstDotAfter(k: string, t: string)
    requires !HasDot(k)
    ensures FirstDot(k + "." + t) == |k|
    decreases |k|
  {
    if k != "" {
      var s := k + "." + t;
      assert k[0] in k && s[1..] == k[1..] + "." + t;
      FirstDotAfter(k[1..], t);
    } else {
      assert ("" + "." + t)[0] == '.';
    }
  }

  lemma SplitJoined(k: string, t: string)
    requires !HasDot(k)
    ensures Key(k + "." + t) == k && Rest(k + "." + t) == t
  {
    FirstDotAfter(k, t);
    assert (k + "." + t)[..|k|] == k && (k + "." + t)[|k| + 1..] == t;
  }

  // ----- Where a route leads --------------------------------------------------------------

  /** The routers a route passes, and the handler at its end if there is one. */
  datatype Walk = Walk(routers: seq<nat>, handler: Option<HandlerId>)

  function Follow(table: seq<Router>, id: nat, route: string): Walk
    requires Valid(table) && id < |table|
    decreases |table| - id
  {
    assert ValidAt(table, id);
    var r := table[id];
    if route in r.handlers then Walk([id], Some(r.handlers[route]))
    else if Key(route) !in r.routes then Walk([id], None)
    else
      var w := Follow(table, r.routes[Key(route)], Rest(route));
      w.(routers := [id] + w.routers)
  }

  function MiddlewaresOf(table: seq<Router>, routers: seq<nat>): seq<MiddlewareId>
    requires forall i | i in routers :: i < |table|
    decreases |routers|
  {
    if routers == [] then []
    else
      assert routers[0] in routers && forall i | i in routers[1..] :: i in routers;
      table[routers[0]].middlewares + MiddlewaresOf(table, routers[1..])
  }

  lemma {:induction false} FollowInTable(table: seq<Router>, id: nat, route: string)
    requires Valid(table) && id < |table|
    ensures forall i | i in Follow(table, id, route).routers :: i < |table|
    decreases |table| - id
  {
    assert ValidAt(table, id);
    var r := table[id];
    if route !in r.handlers && Key(route) in r.routes { FollowInTable(table, r.routes[Key(route)], Rest(route)); }
  }

  /** One middleware after another, each with the context the one before made, until one
      fails. */
  function Pass<C, E>(middlewares: seq<MiddlewareId>, context: C,
        apply: (MiddlewareId, C) -> Result<C, E>): Result<C, E>
    decreases |middlewares|
  {
    if middlewares == [] then Ok(context)
    else
      match apply(middlewares[0], context)
      case Err(e) => Err(e)
      case Ok(c) => Pass(middlewares[1..], c, apply)
  }

  lemma {:induction false} PassAppend<C, E>(a: seq<MiddlewareId>, b: seq<MiddlewareId>, context: C,
        apply: (MiddlewareId, C) -> Result<C, E>)
    ensures Pass(a + b, context, apply) ==
              match Pass(a, context, apply)
              case Err(e) => Err(e)
              case Ok(c) => Pass(b, c, apply)
    decreases |a|
  {
    if a == [] {
      assert a + b == b;
    } else {
      assert (a + b)[0] == a[0] && (a + b)[1..] == a[1..] + b;
      match apply(a[0], context) {
        case Err(_) =>
        case Ok(c) => PassAppend(a[1..], b, c, apply);
      }
    }
  }

  /** Each of the contexts is what the middleware before made of the one before. */
  ghost predicate Passed<C(!new), E(!new)>(middlewares: seq<MiddlewareId>, contexts: seq<C>,
        apply: (MiddlewareId, C) -> Result<C, E>) {
    && 1 <= |contexts| <= |middlewares| + 1
    && forall i | 0 <= i < |contexts| - 1 :: apply(middlewares[i], contexts[i]) == Ok(contexts[i + 1])
  }

  /** All middlewares pass, in their order and each on what the one before made, or the first
      that fails gives the error. */
  lemma {:induction false} PassIs<C(!new), E(!new)>(middlewares: seq<MiddlewareId>, context: C,
        apply: (MiddlewareId, C) -> Result<C, E>) returns (contexts: seq<C>)
    ensures Passed(middlewares, contexts, apply) && contexts[0] == context
    ensures var last := |contexts| - 1;
            match Pass(middlewares, context, apply)
            case Ok(c) => last == |middlewares| && contexts[last] == c
            case Err(e) => last < |middlewares| && apply(middlewares[last], contexts[last]) == Err(e)
    decreases |middlewares|
  {
    contexts := [context];
    if middlewares != [] && apply(middlewares[0], context).Ok? {
      var rest := PassIs(middlewares[1..], apply(middlewares[0], context).value, apply);
      contexts := [context] + rest;
    }
  }

  /** A call fails in a middleware, finds nothing, or reaches a handler in some context. */
  datatype Outcome<C, E> = Failed(error: E) | NotFound | Handled(handler: HandlerId, context: C)

  /** The middlewares of all routers on the way, root to leaf, and then what is at its end. */
  function Dispatch<C, E>(table: seq<Router>, w: Walk, context: C,
        apply: (MiddlewareId, C) -> Result<C, E>): Outcome<C, E>
    requires forall i | i in w.routers :: i < |table|
  {
    match Pass(MiddlewaresOf(table, w.routers), context, apply)
    case Err(e) => Failed(e)
    case Ok(c) => if w.handler.Some? then Handled(w.handler.value, c) else NotFound
  }

  // ----- Which handler it is --------------------------------------------------------------

  /** A router on the way, and what is left of the route there. */
  datatype Place = Place(router: nat, rest: string)

  /** Where a route is after `d` prefixes. */
  function PlaceAt(table: seq<Router>, id: nat, route: string, d: nat): Option<Place>
    requires Valid(table) && id < |table|
    decreases d
  {
    assert ValidAt(table, id);
    if d == 0 then Some(Place(id, route))
    else if Key(route) !in table[id].routes then None
    else PlaceAt(table, table[id].routes[Key(route)], Rest(route), d - 1)
  }

  /** The walk is at its `d`-th place; it goes on from there exactly when the router there has
      no handler by the name of what is left, but a prefix that leads on. */
  predicate OnWay(table: seq<Router>, id: nat, route: string, w: Walk, d: nat)
    requires Valid(table) && id < |table|
  {
    var place := PlaceAt(table, id, route, d);
    d < |w.routers| && place.Some? && place.value.router == w.routers[d] < |table| &&
    var r := table[w.routers[d]];
    if place.value.rest in r.handlers
    then d == |w.routers| - 1 && w.handler == Some(r.handlers[place.value.rest])
    else if Key(place.value.rest) in r.routes then d < |w.routers| - 1
    else d == |w.routers| - 1 && w.handler == None
  }

  /** A route leads to the handler of the first router on its way that has one by the name of
      what is left of the route, and the walk ends there, or where no prefix leads on. */
  lemma {:induction false} FollowIsFirst(table: seq<Router>, id: nat, route: string, d: nat)
    requires Valid(table) && id < |table| && d < |Follow(table, id, route).routers|
    ensures OnWay(table, id, route, Follow(table, id, route), d)
    decreases d
  {
    assert ValidAt(table, id);
    if d > 0 {
      FollowIsFirst(table, table[id].routes[Key(route)], Rest(route), d - 1);
      FollowBelow(table, id, route, d);
    } else {
      FollowStarts(table, id, route);
    }
  }

  lemma FollowStarts(table: seq<Router>, id: nat, route: string)
    requires Valid(table) && id < |table|
    ensures OnWay(table, id, route, Follow(table, id, route), 0)
  {
    assert ValidAt(table, id);
    var r := table[id];
    assert PlaceAt(table, id, route, 0) == Some(Place(id, route));
    if route !in r.handlers && Key(route) in r.routes {
      assert |Follow(table, r.routes[Key(route)], Rest(route)).routers| > 0;
    }
  }

  lemma FollowBelow(table: seq<Router>, id: nat, route: string, d: nat)
    requires Valid(table) && id < |table| && ValidAt(table, id) && 0 < d < |Follow(table, id, route).routers|
    requires Key(route) in table[id].routes && route !in table[id].handlers
    requires var child := table[id].routes[Key(route)];
             OnWay(table, child, Rest(route), Follow(table, child, Rest(route)), d - 1)
    ensures OnWay(table, id, route, Follow(table, id, route), d)
  {
    assert PlaceAt(table, id, route, d) == PlaceAt(table, table[id].routes[Key(route)], Rest(route), d - 1);
  }

  /** The prefixes, each with its dot, and the name. */
  function FullName(prefixes: seq<string>, name: string): string
    decreases |prefixes|
  {
    if prefixes == [] then name else prefixes[0] + "." + FullName(prefixes[1..], name)
  }

  /** The routers from `id` on along the prefixes; `None` if one of them is not there. */
  function Along(table: seq<Router>, id: nat, prefixes: seq<string>): (r: Option<seq<nat>>)
    requires Valid(table) && id < |table|
    ensures r.Some? ==> |r.value| == |prefixes| + 1 && forall i | 0 <= i < |r.value| :: r.value[i] < |table|
    decreases |prefixes|
  {
    assert ValidAt(table, id);
    if prefixes == [] then Some([id])
    else if prefixes[0] !in table[id].routes then None
    else
      match Along(table, table[id].routes[prefixes[0]], prefixes[1..])
      case None => None
      case Some(rest) => Some([id] + rest)
  }

  /** A handler is reached by its full name, through the routers that hold it, unless a router
      above has a handler whose name is the rest of the route with its dots. */
  lemma {:induction false} FullNameReaches(table: seq<Router>, id: nat, prefixes: seq<string>, name: string,
        routers: seq<nat>)
    requires Valid(table) && id < |table| && Along(table, id, prefixes) == Some(routers)
    requires name in table[routers[|prefixes|]].handlers
    requires forall i | 0 <= i < |prefixes| :: FullName(prefixes[i..], name) !in table[routers[i]].handlers
    ensures Follow(table, id, FullName(prefixes, name))
         == Walk(routers, Some(table[routers[|prefixes|]].handlers[name]))
    decreases |prefixes|
  {
    assert ValidAt(table, id);
    if prefixes != [] {
      var child := table[id].routes[prefixes[0]];
      SplitJoined(prefixes[0], FullName(prefixes[1..], name));
      assert prefixes[0..] == prefixes && FullName(prefixes[0..], name) !in table[routers[0]].handlers;
      forall i | 0 <= i < |prefixes| - 1
        ensures FullName(prefixes[1..][i..], name) !in table[routers[1..][i]].handlers
      {
        assert prefixes[1..][i..] == prefixes[i + 1..];
      }
      FullNameReaches(table, child, prefixes[1..], name, routers[1..]);
    }
  }

  // ----- What is listed -----------------------------------------------------------------

  function Join(prefix: string, name: string): string {
    if prefix == "" then name else prefix + "." + name
  }

  /** A router lists its own handlers and what its sub-routers list, under its prefix. */
  predicate Listed(table: seq<Router>, id: nat, prefix: string, topic: string)
    requires Valid(table) && id < |table|
    decreases |table| - id
  {
    assert ValidAt(table, id);
    var r := table[id];
    || (exists h | h in r.handlers :: topic == Join(prefix, h))
    || (exists k | k in r.routes :: Listed(table, r.routes[k], Join(prefix, k), topic))
  }

  /** A prefix goes in front of everything listed. */
  predicate Under(prefix: string, topic: string) {
    |prefix| < |topic| && topic[..|prefix|] == prefix && topic[|prefix|] == '.'
  }

  function After(prefix: string, topic: string): string
    requires Under(prefix, topic)
  {
    topic[|prefix| + 1..]
  }

  lemma UnderJoin(prefix: string, name: string, topic: string)
    requires prefix != ""
    ensures topic == Join(prefix, name) <==> Under(prefix, topic) && After(prefix, topic) == name
    ensures Under(Join(prefix, name), topic) <==> Under(prefix, topic) && Under(name, After(prefix, topic))
    ensures Under(Join(prefix, name), topic) ==> After(Join(prefix, name), topic) == After(name, After(prefix, topic))
  {
  }

  // ----- Reached and listed ---------------------------------------------------------------

  /** The route is the name of a handler, with the prefixes on its way in front, each with its
      dot. */
  predicate Exact(table: seq<Router>, id: nat, route: string)
    requires Valid(table) && id < |table|
    decreases |table| - id
  {
    assert ValidAt(table, id);
    var r := table[id];
    route in r.handlers
    || (FirstDot(route) < |route| && Key(route) in r.routes && Exact(table, r.routes[Key(route)], Rest(route)))
  }

  /** Nothing leads to a handler here: one without a name, perhaps behind prefixes without
      one. */
  predicate Void(table: seq<Router>, id: nat)
    requires Valid(table) && id < |table|
    decreases |table| - id
  {
    assert ValidAt(table, id);
    "" in table[id].handlers || ("" in table[id].routes && Void(table, table[id].routes[""]))
  }

  /** The route is the prefixes alone of a router where nothing leads to a handler. */
  predicate Bare(table: seq<Router>, id: nat, route: string)
    requires Valid(table) && id < |table|
    decreases |table| - id
  {
    assert ValidAt(table, id);
    var r := table[id];
    Key(route) in r.routes &&
      if FirstDot(route) < |route| then Bare(table, r.routes[Key(route)], Rest(route))
      else Void(table, r.routes[Key(route)])
  }

  predicate Reached(table: seq<Router>, id: nat, route: string)
    requires Valid(table) && id < |table|
  {
    Follow(table, id, route).handler.Some?
  }

  lemma {:induction false} VoidIff(table: seq<Router>, id: nat)
    requires Valid(table) && id < |table|
    ensures Reached(table, id, "") <==> Void(table, id)
    decreases |table| - id
  {
    assert ValidAt(table, id);
    if "" in table[id].routes { VoidIff(table, table[id].routes[""]); }
  }

  /** In any tree a route leads to a handler exactly when it is the handler's full name, or
      ends at a router in which nothing is one. */
  lemma {:induction false} ReachedIff(table: seq<Router>, id: nat, route: string)
    requires Valid(table) && id < |table|
    ensures Reached(table, id, route) <==> Exact(table, id, route) || Bare(table, id, route)
    decreases |table| - id
  {
    assert ValidAt(table, id);
    var r := table[id];
    if Key(route) in r.routes {
      ReachedIff(table, r.routes[Key(route)], Rest(route));
      VoidIff(table, r.routes[Key(route)]);
    }
  }

  lemma {:induction false} ListedUnder(table: seq<Router>, id: nat, prefix: string, topic: string)
    requires Valid(table) && id < |table| && prefix != ""
    ensures Listed(table, id, prefix, topic) <==> Under(prefix, topic) && Exact(table, id, After(prefix, topic))
    decreases |table| - id
  {
    assert ValidAt(table, id);
    var r := table[id];
    forall h | h in r.handlers ensures topic == Join(prefix, h) <==> Under(prefix, topic) && After(prefix, topic) == h {
      UnderJoin(prefix, h, topic);
    }
    forall k | k in r.routes
      ensures Listed(table, r.routes[k], Join(prefix, k), topic)
         <==> && Under(prefix, topic) && Under(k, After(prefix, topic))
              && Exact(table, r.routes[k], After(k, After(prefix, topic)))
    {
      UnderJoin(prefix, k, topic);
      ListedUnder(table, r.routes[k], Join(prefix, k), topic);
    }
    if Under(prefix, topic) {
      forall k | k in r.routes { UnderFirst(k, After(prefix, topic)); }
    }
  }

  lemma UnderFirst(k: string, route: string)
    requires !HasDot(k)
    ensures Under(k, route) <==> k == Key(route) && FirstDot(route) < |route|
    ensures Under(k, route) ==> After(k, route) == Rest(route)
  {
  }

  /** The route is the full name of a handler, but for the dots of empty prefixes in front. */
  predicate Shown(table: seq<Router>, id: nat, route: string)
    requires Valid(table) && id < |table|
    decreases |table| - id
  {
    assert ValidAt(table, id);
    var r := table[id];
    || route in r.handlers
    || (Key(route) != "" && FirstDot(route) < |route| && Key(route) in r.routes
        && Exact(table, r.routes[Key(route)], Rest(route)))
    || ("" in r.routes && Shown(table, r.routes[""], route))
  }

  /** What is listed is the full names without the dots of empty prefixes in front. */
  lemma {:induction false} ListedIff(table: seq<Router>, id: nat, route: string)
    requires Valid(table) && id < |table|
    ensures Listed(table, id, "", route) <==> Shown(table, id, route)
    decreases |table| - id
  {
    assert ValidAt(table, id);
    forall k | k in table[id].routes && k != ""
      ensures Listed(table, table[id].routes[k], Join("", k), route)
         <==> && k == Key(route) && FirstDot(route) < |route| && Exact(table, table[id].routes[k], Rest(route))
    {
      ListedUnder(table, table[id].routes[k], k, route);
      UnderFirst(k, route);
    }
    if "" in table[id].routes {
      ListedIff(table, table[id].routes[""], route);
      assert Join("", "") == "";
    }
  }

  /** Without an empty prefix at the top no dot is dropped. */
  lemma ShownIsExact(table: seq<Router>, id: nat, route: string)
    requires Valid(table) && id < |table| && "" !in table[id].routes
    ensures Shown(table, id, route) <==> Exact(table, id, route)
  {
  }

  predicate AgreeOn(table: seq<Router>, id: nat, route: string)
    requires Valid(table) && id < |table|
  {
    Reached(table, id, route) <==> Listed(table, id, "", route)
  }

  /** Reaching by the full name or by bare prefixes, and showing without the dots in front,
      make no difference for the route. */
  predicate NamedAlike(table: seq<Router>, id: nat, route: string)
    requires Valid(table) && id < |table|
  {
    Exact(table, id, route) || Bare(table, id, route) <==> Shown(table, id, route)
  }

  /** The routes that lead to a handler are those listed exactly when the names that lead to
      handlers are the names shown. */
  lemma ReachedIffListed(table: seq<Router>, id: nat)
    requires Valid(table) && id < |table|
    ensures (forall route :: AgreeOn(table, id, route)) <==> (forall route :: NamedAlike(table, id, route))
  {
    forall route ensures AgreeOn(table, id, route) <==> NamedAlike(table, id, route) {
      ReachedIff(table, id, route);
      ListedIff(table, id, route);
    }
  }

  predicate BareIsExact(table: seq<Router>, id: nat, route: string)
    requires Valid(table) && id < |table|
  {
    Bare(table, id, route) ==> Exact(table, id, route)
  }

  /** Without an empty prefix at the top that is when every route that ends at an unnamed
      handler is also the full name of one. */
  lemma ReachedIffListedBare(table: seq<Router>, id: nat)
    requires Valid(table) && id < |table| && "" !in table[id].routes
    ensures (forall route :: AgreeOn(table, id, route)) <==> (forall route :: BareIsExact(table, id, route))
  {
    forall route ensures AgreeOn(table, id, route) <==> BareIsExact(table, id, route) {
      ReachedIff(table, id, route);
      ListedIff(table, id, route);
      ShownIsExact(table, id, route);
    }
  }

  /** No handler is named by nothing. */
  predicate Named(table: seq<Router>) {
    forall i | 0 <= i < |table| :: "" !in table[i].handlers
  }

  lemma {:induction false} NoneVoid(table: seq<Router>, id: nat)
    requires Valid(table) && Named(table) && id < |table|
    ensures !Void(table, id)
    decreases |table| - id
  {
    assert ValidAt(table, id);
    if "" in table[id].routes { NoneVoid(table, table[id].routes[""]); }
  }

  lemma {:induction false} NoneBare(table: seq<Router>, id: nat, route: string)
    requires Valid(table) && Named(table) && id < |table|
    ensures !Bare(table, id, route)
    decreases |table| - id
  {
    assert ValidAt(table, id);
    if Key(route) in table[id].routes {
      NoneVoid(table, table[id].routes[Key(route)]);
      NoneBare(table, table[id].routes[Key(route)], Rest(route));
    }
  }

  /** With every handler named, and no empty prefix at the top, a route leads to a handler
      exactly when it is listed. */
  lemma NamedIsReachedIffListed(table: seq<Router>, id: nat, route: string)
    requires Valid(table) && Named(table) && id < |table| && "" !in table[id].routes
    ensures Reached(table, id, route) <==> Listed(table, id, "", route)
  {
    ReachedIff(table, id, route);
    ListedIff(table, id, route);
    ShownIsExact(table, id, route);
    NoneBare(table, id, route);
  }

  /** A handler named by nothing is reached by the bare prefix but listed with a dot after
      it. */
  lemma UnnamedIsListedWrongly()
    ensures var table := [Router(map[], map["a" := 1], []), Router(map["" := 7], map[], [])];
            && Valid(table) && Reached(table, 0, "a") && !Listed(table, 0, "", "a")
            && Reached(table, 0, "a.") && Listed(table, 0, "", "a.")
  {
    var table := [Router(map[], map["a" := 1], []), Router(map["" := 7], map[], [])];
    assert FirstDot("a") == 1 by { assert "a"[1..] == "" && FirstDot("") == 0; }
    assert Key("a") == "a" && Rest("a") == "";
    assert "a" + "." + "" == "a.";
    SplitJoined("a", "");
    assert Follow(table, 1, "").handler == Some(7);
    assert Join("", "a") == "a" && Join("a", "") == "a.";
    assert Listed(table, 1, "a", "a.") && !Listed(table, 1, "a", "a");
  }

  /** What is under an empty prefix is listed without the dot that leads to it. */
  lemma EmptyPrefixIsListedWrongly()
    ensures var table := [Router(map[], map["" := 1], []), Router(map["x" := 7], map[], [])];
            && Valid(table) && Reached(table, 0, ".x") && !Listed(table, 0, "", ".x")
            && !Reached(table, 0, "x") && Listed(table, 0, "", "x")
  {
    var table := [Router(map[], map["" := 1], []), Router(map["x" := 7], map[], [])];
    assert FirstDot("x") == 1 by { assert "x"[1..] == "" && FirstDot("") == 0; }
    assert Key("x") == "x";
    assert "" + "." + "x" == ".x";
    SplitJoined("", "x");
    assert Follow(table, 1, "x").handler == Some(7);
    assert Join("", "") == "" && Join("", "x") == "x";
    assert Listed(table, 1, "", "x") && !Listed(table, 1, "", ".x");
  }

  // ----- The routers as they are built ---------------------------------------------------

  class Routers {
    var table: seq<Router>

    constructor ()
      ensures table == [NEW_ROUTER] && Valid(table)
    {
      table := [NEW_ROUTER];
    }

    /** The sub-router under the prefix, made if there is none; a prefix with a dot is refused. */
    method SubRoute(id: nat, prefix: string) returns (sub: Option<nat>)
      requires Valid(table) && id < |table|
      modifies this
      ensures Valid(table) && |old(table)| <= |table| && (sub.None? <==> HasDot(prefix))
      ensures sub.Some? ==> sub.value < |table| && prefix in table[id].routes && table[id].routes[prefix] == sub.value
      ensures HasDot(prefix) || prefix in old(table)[id].routes ==> table == old(table)
      ensures !HasDot(prefix) && prefix !in old(table)[id].routes ==>
                var r := old(table)[id];
                && sub == Some(|old(table)|)
                && table == old(table)[id := r.(routes := r.routes[prefix := |old(table)|])] + [NEW_ROUTER]
    {
      assert ValidAt(table, id);
      if HasDot(prefix) { return None; }
      var r := table[id];
      if prefix in r.routes { return Some(r.routes[prefix]); }
      ghost var before := table;
      table := table[id := r.(routes := r.routes[prefix := |table|])] + [NEW_ROUTER];
      forall i: nat | i < |table| ensures ValidAt(table, i) {
        if i < |before| { assert ValidAt(before, i); }
      }
      return Some(|table| - 1);
    }

    /** A second handler of the same name is refused. */
    method WithHandler(id: nat, name: string, handler: HandlerId) returns (ok: bool)
      requires Valid(table) && id < |table|
      modifies this
      ensures Valid(table) && (ok <==> name !in old(table)[id].handlers)
      ensures var r := old(table)[id];
              table == if ok then old(table)[id := r.(handlers := r.handlers[name := handler])] else old(table)
    {
      var r := table[id];
      if name in r.handlers { return false; }
      ghost var before := table;
      table := table[id := r.(handlers := r.handlers[name := handler])];
      forall i: nat | i < |table| ensures ValidAt(table, i) { assert ValidAt(before, i); }
      return true;
    }

    method Use(id: nat, m: MiddlewareId)
      requires Valid(table) && id < |table|
      modifies this
      ensures Valid(table)
      ensures table == old(table)[id := old(table)[id].(middlewares := old(table)[id].middlewares + [m])]
    {
      ghost var before := table;
      table := table[id := table[id].(middlewares := table[id].middlewares + [m])];
      forall i: nat | i < |table| ensures ValidAt(table, i) { assert ValidAt(before, i); }
    }

    method RunMiddlewares<C, E>(ms: seq<MiddlewareId>, context: C, apply: (MiddlewareId, C) -> Result<C, E>)
          returns (r: Result<C, E>)
      ensures r == Pass(ms, context, apply)
    {
      var c := context;
      for k := 0 to |ms|
        invariant Pass(ms, context, apply) == Pass(ms[k..], c, apply)
      {
        assert ms[k..][1..] == ms[k + 1..];
        match apply(ms[k], c) {
          case Err(e) => return Err(e);
          case Ok(next) => c := next;
        }
      }
      r := Ok(c);
    }

    /** A call runs exactly the middlewares of the routers on its way, root to leaf; the first
        that fails ends it, and otherwise it ends at the handler the route leads to. */
    method Call<C, E>(id: nat, route: string, context: C, apply: (MiddlewareId, C) -> Result<C, E>)
          returns (o: Outcome<C, E>)
      requires Valid(table) && id < |table|
      ensures (forall i | i in Follow(table, id, route).routers :: i < |table|)
              && o == Dispatch(table, Follow(table, id, route), context, apply)
      decreases |table| - id
    {
      assert ValidAt(table, id);
      FollowInTable(table, id, route);
      var r := table[id];
      var passed := RunMiddlewares(r.middlewares, context, apply);
      assert MiddlewaresOf(table, [id]) == r.middlewares;
      if passed.Err? {
        DispatchStops(table, id, route, context, apply);
        return Failed(passed.error);
      }
      if route in r.handlers { return Handled(r.handlers[route], passed.value); }
      var key, rest := Key(route), Rest(route);
      if key !in r.routes { return NotFound; }
      DispatchNext(table, id, route, context, apply);
      o := Call(r.routes[key], rest, passed.value, apply);
    }

    /** All that is listed, after what was there. */
    method GetTopics(id: nat, prefix: string, l: seq<string>) returns (r: seq<string>)
      requires Valid(table) && id < |table|
      ensures forall t :: t in r <==> t in l || Listed(table, id, prefix, t)
      decreases |table| - id
    {
      assert ValidAt(table, id);
      r := l;
      var names, done := table[id].handlers.Keys, {};
      while names != {}
        invariant forall h :: h in table[id].handlers <==> h in names || h in done
        invariant forall t :: t in r <==> t in l || exists h | h in done :: t == Join(prefix, h)
        decreases names
      {
        var h :| h in names;
        names, done, r := names - {h}, done + {h}, r + [Join(prefix, h)];
      }
      ghost var own := r;
      var subs, seen := table[id].routes.Keys, {};
      while subs != {}
        invariant forall k :: k in table[id].routes <==> k in subs || k in seen
        invariant forall t :: t in r <==>
                    t in own || exists k | k in seen :: Listed(table, table[id].routes[k], Join(prefix, k), t)
        decreases subs
      {
        var k :| k in subs;
        r := GetTopics(table[id].routes[k], Join(prefix, k), r);
        subs, seen := subs - {k}, seen + {k};
      }
    }
  }

  lemma DispatchStops<C, E>(table: seq<Router>, id: nat, route: string, context: C,
        apply: (MiddlewareId, C) -> Result<C, E>)
    requires Valid(table) && id < |table|
    requires forall i | i in Follow(table, id, route).routers :: i < |table|
    requires Pass(table[id].middlewares, context, apply).Err?
    ensures Dispatch(table, Follow(table, id, route), context, apply)
        == Failed(Pass(table[id].middlewares, context, apply).error)
  {
    var w := Follow(table, id, route);
    assert w.routers[0] == id;
    assert forall i | i in w.routers[1..] :: i in w.routers;
    PassAppend(table[id].middlewares, MiddlewaresOf(table, w.routers[1..]), context, apply);
  }

  lemma DispatchNext<C, E>(table: seq<Router>, id: nat, route: string, context: C,
        apply: (MiddlewareId, C) -> Result<C, E>)
    requires Valid(table) && id < |table| && route !in table[id].handlers && Key(route) in table[id].routes
    requires ValidAt(table, id) && Pass(table[id].middlewares, context, apply).Ok?
    ensures var child := Follow(table, table[id].routes[Key(route)], Rest(route));
            var w := Follow(table, id, route);
            && (forall i | i in child.routers :: i < |table|) && (forall i | i in w.routers :: i < |table|)
            && Dispatch(table, w, context, apply)
            == Dispatch(table, child, Pass(table[id].middlewares, context, apply).value, apply)
  {
    FollowInTable(table, id, route);
    FollowInTable(table, table[id].routes[Key(route)], Rest(route));
    var child, w := Follow(table, table[id].routes[Key(route)], Rest(route)), Follow(table, id, route);
    assert w.routers[0] == id && w.routers[1..] == child.routers;
    PassAppend(table[id].middlewares, MiddlewaresOf(table, child.routers), context, apply);
  }
}
