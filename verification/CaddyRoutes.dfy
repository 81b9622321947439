/**
 The route list of Caddy's TLS server, changed through the admin API one call at a time, and the
 reconcile pass that makes the engine's part of it match a desired set.
 */
module CaddyRoutes {
  import opened Wrappers
  import opened Text
  import opened CaddyJson

  // ---- Effects of the admin calls ----

  /** `DELETE /id/<id>`: the route carrying that id goes; nothing happens when there is none. */
  function Deleted(routes: seq<Value>, id: string): seq<Value> {
    if |routes| == 0 then []
    else if Id(routes[0]) == Some(id) then routes[1..]
    else [routes[0]] + Deleted(routes[1..], id)
  }

  /** `set_app_route`: delete by id, then insert at the front. */
  function WithRoute(routes: seq<Value>, route: AppRoute): seq<Value> {
    [BuildRouteJson(route)] + Deleted(routes, RouteId(route.name))
  }

  /** `list_app_routes`. */
  function Listed(routes: seq<Value>): seq<AppRoute> {
    if |routes| == 0 then []
    else
      var rest := Listed(routes[1..]);
      if ReadRoute(routes[0]).Some? then [ReadRoute(routes[0]).value] + rest else rest
  }

  function Names(desired: seq<AppRoute>): set<string> {
    set i | 0 <= i < |desired| :: desired[i].name
  }

  /** First loop of the reconcile pass: drop listed routes that are no longer wanted. */
  function Pruned(routes: seq<Value>, existing: seq<AppRoute>, wanted: set<string>): seq<Value>
    decreases |existing|
  {
    if |existing| == 0 then routes
    else
      var name := existing[0].name;
      Pruned(if name in wanted then routes else Deleted(routes, RouteId(name)), existing[1..], wanted)
  }

  /** Second loop: set every desired route. */
  function AllSet(routes: seq<Value>, desired: seq<AppRoute>): seq<Value>
    decreases |desired|
  {
    if |desired| == 0 then routes else AllSet(WithRoute(routes, desired[0]), desired[1..])
  }

  /** `replace_app_routes` when every admin call succeeds. */
  function Reconciled(routes: seq<Value>, desired: seq<AppRoute>): seq<Value> {
    AllSet(Pruned(routes, Listed(routes), Names(desired)), desired)
  }

  // ---- What the result should be ----

  ghost predicate UniqueIds(routes: seq<Value>) {
    forall i, j :: 0 <= i < j < |routes| && Owned(routes[i]) ==> Id(routes[i]) != Id(routes[j])
  }

  ghost predicate DistinctNames(desired: seq<AppRoute>) {
    forall i, j :: 0 <= i < j < |desired| ==> desired[i].name != desired[j].name
  }

  /** The routes that are not the engine's, in their order. */
  function Statics(routes: seq<Value>): seq<Value> {
    if |routes| == 0 then []
    else if Owned(routes[0]) then Statics(routes[1..])
    else [routes[0]] + Statics(routes[1..])
  }

  /** The desired routes as JSON, last one first. */
  function BuiltReversed(desired: seq<AppRoute>): seq<Value> {
    if |desired| == 0 then [] else BuiltReversed(desired[1..]) + [BuildRouteJson(desired[0])]
  }

  function Reversed(desired: seq<AppRoute>): seq<AppRoute> {
    if |desired| == 0 then [] else Reversed(desired[1..]) + [desired[0]]
  }

  /** The route is one of those with an id in `names`. */
  predicate Carries(route: Value, names: set<string>) {
    Owned(route) && NameOf(route) in names
  }

  /** `routes` less the engine's routes for these names. */
  function Without(routes: seq<Value>, names: set<string>): seq<Value> {
    if |routes| == 0 then []
    else if Carries(routes[0], names) then Without(routes[1..], names)
    else [routes[0]] + Without(routes[1..], names)
  }

  /** An engine route that no longer reads as one, for an app that is not desired: the pass does not see it. */
  predicate Drifted(route: Value, desired: seq<AppRoute>) {
    Owned(route) && ReadRoute(route).None? && NameOf(route) !in Names(desired)
  }

  // ---- Deleting by id, on a list with unique ids ----

  lemma IdIffName(route: Value, name: string)
    ensures Id(route) == Some(RouteId(name)) <==> Carries(route, {name})
  {
    IdIsOwned(name);
    if Owned(route) && NameOf(route) == name {
      var id := Id(route).value;
      assert id == id[..|ROUTE_ID_PREFIX|] + id[|ROUTE_ID_PREFIX|..];
    }
  }

  lemma {:induction false} WithoutNothing(routes: seq<Value>, names: set<string>)
    requires forall k :: 0 <= k < |routes| ==> !Carries(routes[k], names)
    ensures Without(routes, names) == routes
  {
    if |routes| > 0 {
      WithoutNothing(routes[1..], names);
    }
  }

  lemma {:induction false} DeletedIsWithout(routes: seq<Value>, name: string)
    requires UniqueIds(routes)
    ensures Deleted(routes, RouteId(name)) == Without(routes, {name})
  {
    if |routes| > 0 {
      IdIffName(routes[0], name);
      if Carries(routes[0], {name}) {
        forall k | 0 <= k < |routes[1..]|
          ensures !Carries(routes[1..][k], {name})
        {
          IdIffName(routes[k + 1], name);
        }
        WithoutNothing(routes[1..], {name});
      } else {
        DeletedIsWithout(routes[1..], name);
      }
    }
  }

  lemma {:induction false} WithoutTwice(routes: seq<Value>, a: set<string>, b: set<string>)
    ensures Without(Without(routes, a), b) == Without(routes, a + b)
  {
    if |routes| > 0 {
      WithoutTwice(routes[1..], a, b);
      var rest := Without(routes[1..], a);
      assert ([routes[0]] + rest)[1..] == rest;
    }
  }

  lemma {:induction false} WithoutHas(routes: seq<Value>, names: set<string>, route: Value)
    ensures route in Without(routes, names) <==> route in routes && !Carries(route, names)
  {
    if |routes| > 0 {
      WithoutHas(routes[1..], names, route);
    }
  }

  lemma {:induction false} WithoutKeepsUnique(routes: seq<Value>, names: set<string>)
    requires UniqueIds(routes)
    ensures UniqueIds(Without(routes, names))
  {
    if |routes| > 0 {
      var head, rest := routes[0], Without(routes[1..], names);
      WithoutKeepsUnique(routes[1..], names);
      if Owned(head) {
        forall k | 0 <= k < |rest|
          ensures Id(rest[k]) != Id(head)
        {
          WithoutHas(routes[1..], names, rest[k]);
          var j :| 0 <= j < |routes[1..]| && routes[1..][j] == rest[k];
          assert routes[j + 1] == rest[k];
        }
      }
    }
  }

  lemma {:induction false} WithoutConcat(a: seq<Value>, b: seq<Value>, names: set<string>)
    ensures Without(a + b, names) == Without(a, names) + Without(b, names)
  {
    if |a| == 0 {
      assert a + b == b;
    } else {
      WithoutConcat(a[1..], b, names);
      assert (a + b)[1..] == a[1..] + b;
    }
  }

  // ---- The two loops ----

  lemma NamesOfTail(routes: seq<AppRoute>)
    requires |routes| > 0
    ensures Names(routes) == {routes[0].name} + Names(routes[1..])
  {
  }

  lemma {:induction false} PrunedIs(routes: seq<Value>, existing: seq<AppRoute>, wanted: set<string>)
    requires UniqueIds(routes)
    ensures Pruned(routes, existing, wanted) == Without(routes, Names(existing) - wanted)
    decreases |existing|
  {
    if |existing| == 0 {
      WithoutNothing(routes, Names(existing) - wanted);
    } else {
      var name, rest := existing[0].name, Names(existing[1..]) - wanted;
      NamesOfTail(existing);
      if name in wanted {
        PrunedIs(routes, existing[1..], wanted);
        assert Names(existing) - wanted == rest;
      } else {
        DeletedIsWithout(routes, name);
        WithoutKeepsUnique(routes, {name});
        PrunedIs(Without(routes, {name}), existing[1..], wanted);
        WithoutTwice(routes, {name}, rest);
        assert Names(existing) - wanted == {name} + rest;
      }
    }
  }

  lemma BuiltCarries(route: AppRoute, names: set<string>)
    ensures Carries(BuildRouteJson(route), names) <==> route.name in names
  {
  }

  lemma SetKeepsUnique(routes: seq<Value>, route: AppRoute)
    requires UniqueIds(routes)
    ensures UniqueIds(WithRoute(routes, route))
  {
    var rest := Without(routes, {route.name});
    DeletedIsWithout(routes, route.name);
    WithoutKeepsUnique(routes, {route.name});
    BuiltFields(route);
    forall k | 0 <= k < |rest|
      ensures Id(rest[k]) != Id(BuildRouteJson(route))
    {
      WithoutHas(routes, {route.name}, rest[k]);
      IdIffName(rest[k], route.name);
    }
  }

  lemma {:induction false} AllSetKeepsUnique(routes: seq<Value>, desired: seq<AppRoute>)
    requires UniqueIds(routes)
    ensures UniqueIds(AllSet(routes, desired))
    decreases |desired|
  {
    if |desired| > 0 {
      SetKeepsUnique(routes, desired[0]);
      AllSetKeepsUnique(WithRoute(routes, desired[0]), desired[1..]);
    }
  }

  lemma WithoutNoNames(routes: seq<Value>)
    ensures Without(routes, {}) == routes
  {
    WithoutNothing(routes, {});
  }

  /** A new route in front stays when names of others are taken out. */
  lemma FrontStays(routes: seq<Value>, first: AppRoute, others: set<string>)
    requires UniqueIds(routes) && first.name !in others
    ensures Without(WithRoute(routes, first), others) ==
            [BuildRouteJson(first)] + Without(routes, {first.name} + others)
  {
    var rest := Without(routes, {first.name});
    DeletedIsWithout(routes, first.name);
    BuiltCarries(first, others);
    WithoutTwice(routes, {first.name}, others);
    hide Carries, UniqueIds, BuildRouteJson;
    assert WithRoute(routes, first)[1..] == rest;
  }

  lemma Regrouped(a: seq<Value>, b: seq<Value>, c: seq<Value>)
    ensures a + (b + c) == a + b + c
  {
  }

  lemma {:induction false} AllSetIs(routes: seq<Value>, desired: seq<AppRoute>)
    requires UniqueIds(routes) && DistinctNames(desired)
    ensures AllSet(routes, desired) == BuiltReversed(desired) + Without(routes, Names(desired))
    decreases |desired|
  {
    hide UniqueIds, BuildRouteJson, WithRoute, Without;
    if |desired| == 0 {
      WithoutNoNames(routes);
      assert Names(desired) == {};
    } else {
      var first, others := desired[0], desired[1..];
      SetKeepsUnique(routes, first);
      AllSetIs(WithRoute(routes, first), others);
      FrontStays(routes, first, Names(others));
      NamesOfTail(desired);
      Regrouped(BuiltReversed(others), [BuildRouteJson(first)], Without(routes, Names(desired)));
    }
  }

  /** What the pass computes, for every list with unique ids. */
  lemma ReconciledIs(routes: seq<Value>, desired: seq<AppRoute>)
    requires UniqueIds(routes) && DistinctNames(desired)
    ensures Reconciled(routes, desired) ==
            BuiltReversed(desired) + Without(routes, Names(Listed(routes)) + Names(desired))
    ensures UniqueIds(Reconciled(routes, desired))
  {
    var listed, wanted := Names(Listed(routes)), Names(desired);
    var stale := listed - wanted;
    PrunedIs(routes, Listed(routes), wanted);
    WithoutKeepsUnique(routes, stale);
    AllSetIs(Without(routes, stale), desired);
    AllSetKeepsUnique(Without(routes, stale), desired);
    WithoutTwice(routes, stale, wanted);
    assert stale + wanted == listed + wanted;
  }

  // ---- What is left besides the desired routes ----

  lemma {:induction false} ListedHas(routes: seq<Value>, name: string)
    ensures name in Names(Listed(routes)) <==>
            exists k :: 0 <= k < |routes| && ReadRoute(routes[k]).Some? && NameOf(routes[k]) == name
  {
    if |routes| > 0 {
      ListedHas(routes[1..], name);
      if ReadRoute(routes[0]).Some? {
        NamesOfTail(Listed(routes));
        assert Listed(routes)[1..] == Listed(routes[1..]);
      }
      assert forall k :: 0 < k < |routes| ==> routes[k] == routes[1..][k - 1];
    }
  }

  lemma {:induction false} StaticsHas(routes: seq<Value>, route: Value)
    ensures route in Statics(routes) <==> route in routes && !Owned(route)
  {
    if |routes| > 0 {
      StaticsHas(routes[1..], route);
    }
  }

  lemma {:induction false} WithoutAllOwned(routes: seq<Value>, names: set<string>)
    requires forall k :: 0 <= k < |routes| && Owned(routes[k]) ==> NameOf(routes[k]) in names
    ensures Without(routes, names) == Statics(routes)
  {
    if |routes| > 0 {
      WithoutAllOwned(routes[1..], names);
    }
  }

  lemma SameNameSamePlace(routes: seq<Value>, i: nat, j: nat)
    requires UniqueIds(routes) && i < |routes| && j < |routes|
    requires Owned(routes[i]) && Owned(routes[j]) && NameOf(routes[i]) == NameOf(routes[j])
    ensures i == j
  {
    IdIffName(routes[i], NameOf(routes[i]));
    IdIffName(routes[j], NameOf(routes[j]));
  }

  /** A drifted route is out of the pass's reach: it survives. */
  lemma DriftedSurvives(routes: seq<Value>, desired: seq<AppRoute>, k: nat)
    requires UniqueIds(routes) && k < |routes| && Drifted(routes[k], desired)
    ensures routes[k] in Without(routes, Names(Listed(routes)) + Names(desired))
  {
    var name := NameOf(routes[k]);
    ListedHas(routes, name);
    if name in Names(Listed(routes)) {
      var j :| 0 <= j < |routes| && ReadRoute(routes[j]).Some? && NameOf(routes[j]) == name;
      SameNameSamePlace(routes, k, j);
    }
    WithoutHas(routes, Names(Listed(routes)) + Names(desired), routes[k]);
  }

  /**
   The promise of the pass - the desired routes in front, then the static routes untouched and in
   order - is kept exactly when no engine route for an undesired app has lost its shape.
   */
  lemma ReconciledIffNoDrift(routes: seq<Value>, desired: seq<AppRoute>)
    requires UniqueIds(routes) && DistinctNames(desired)
    ensures Reconciled(routes, desired) == BuiltReversed(desired) + Statics(routes) <==>
            forall k :: 0 <= k < |routes| ==> !Drifted(routes[k], desired)
  {
    ReconciledIs(routes, desired);
    var names := Names(Listed(routes)) + Names(desired);
    var built := BuiltReversed(desired);
    if k :| 0 <= k < |routes| && Drifted(routes[k], desired) {
      DriftedSurvives(routes, desired, k);
      StaticsHas(routes, routes[k]);
      assert (built + Without(routes, names))[|built|..] == Without(routes, names);
      assert (built + Statics(routes))[|built|..] == Statics(routes);
    } else {
      forall k | 0 <= k < |routes| && Owned(routes[k])
        ensures NameOf(routes[k]) in names
      {
        ListedHas(routes, NameOf(routes[k]));
      }
      WithoutAllOwned(routes, names);
    }
  }

  // ---- Listing after the pass, and passing again ----

  lemma {:induction false} ListedConcat(a: seq<Value>, b: seq<Value>)
    ensures Listed(a + b) == Listed(a) + Listed(b)
  {
    hide ReadRoute;
    if |a| == 0 {
      assert a + b == b;
    } else {
      ListedConcat(a[1..], b);
      assert (a + b)[1..] == a[1..] + b;
    }
  }

  lemma {:induction false} ListedBuilt(desired: seq<AppRoute>)
    ensures Listed(BuiltReversed(desired)) == Reversed(desired)
  {
    if |desired| > 0 {
      var last := [BuildRouteJson(desired[0])];
      ListedBuilt(desired[1..]);
      ListedConcat(BuiltReversed(desired[1..]), last);
      ReadInvertsBuild(desired[0]);
      assert Listed(last[1..]) == [];
    }
  }

  lemma {:induction false} NoneListed(routes: seq<Value>)
    requires forall k :: 0 <= k < |routes| ==> ReadRoute(routes[k]).None?
    ensures Listed(routes) == []
  {
    hide ReadRoute;
    if |routes| > 0 {
      NoneListed(routes[1..]);
    }
  }

  lemma LeftoversNotListed(routes: seq<Value>, names: set<string>)
    requires Names(Listed(routes)) <= names
    ensures Listed(Without(routes, names)) == []
  {
    var rest := Without(routes, names);
    forall k | 0 <= k < |rest|
      ensures ReadRoute(rest[k]).None?
    {
      WithoutHas(routes, names, rest[k]);
      if ReadRoute(rest[k]).Some? {
        var j :| 0 <= j < |routes| && routes[j] == rest[k];
        ListedHas(routes, NameOf(routes[j]));
      }
    }
    NoneListed(rest);
  }

  /** After the pass the engine lists exactly the desired routes, whatever was there before. */
  lemma ListedAfterReconcile(routes: seq<Value>, desired: seq<AppRoute>)
    requires UniqueIds(routes) && DistinctNames(desired)
    ensures Listed(Reconciled(routes, desired)) == Reversed(desired)
  {
    var names := Names(Listed(routes)) + Names(desired);
    ReconciledIs(routes, desired);
    ListedConcat(BuiltReversed(desired), Without(routes, names));
    ListedBuilt(desired);
    LeftoversNotListed(routes, names);
  }

  lemma {:induction false} NamesReversed(desired: seq<AppRoute>)
    ensures Names(Reversed(desired)) == Names(desired)
  {
    if |desired| > 0 {
      NamesReversed(desired[1..]);
      NamesOfTail(desired);
      var front := Reversed(desired[1..]);
      var all := front + [desired[0]];
      assert all[|front|] == desired[0];
      forall n | n in Names(front)
        ensures n in Names(all)
      {
        var i :| 0 <= i < |front| && front[i].name == n;
        assert all[i].name == n;
      }
      forall n | n in Names(all)
        ensures n in Names(front) + {desired[0].name}
      {
        var i :| 0 <= i < |all| && all[i].name == n;
        assert i < |front| ==> front[i].name == n;
      }
    }
  }

  lemma {:induction false} NoBuiltLeft(desired: seq<AppRoute>, names: set<string>)
    requires Names(desired) <= names
    ensures Without(BuiltReversed(desired), names) == []
  {
    if |desired| > 0 {
      var last := [BuildRouteJson(desired[0])];
      NamesOfTail(desired);
      NoBuiltLeft(desired[1..], names);
      BuiltCarries(desired[0], names);
      WithoutConcat(BuiltReversed(desired[1..]), last, names);
      assert Without(last[1..], names) == [];
    }
  }

  lemma SecondPassKeeps(routes: seq<Value>, desired: seq<AppRoute>, names: set<string>)
    requires Names(desired) <= names
    ensures Without(BuiltReversed(desired) + Without(routes, names), Names(desired)) == Without(routes, names)
  {
    WithoutConcat(BuiltReversed(desired), Without(routes, names), Names(desired));
    NoBuiltLeft(desired, Names(desired));
    WithoutTwice(routes, names, Names(desired));
    assert names + Names(desired) == names;
  }

  lemma NamesAfterReconcile(routes: seq<Value>, desired: seq<AppRoute>)
    requires UniqueIds(routes) && DistinctNames(desired)
    ensures Names(Listed(Reconciled(routes, desired))) + Names(desired) == Names(desired)
  {
    ListedAfterReconcile(routes, desired);
    NamesReversed(desired);
  }

  /** Running the pass again changes nothing. */
  lemma ReconcileIsIdempotent(routes: seq<Value>, desired: seq<AppRoute>)
    requires UniqueIds(routes) && DistinctNames(desired)
    ensures Reconciled(Reconciled(routes, desired), desired) == Reconciled(routes, desired)
  {
    ReconciledIs(routes, desired);
    ReconciledIs(Reconciled(routes, desired), desired);
    NamesAfterReconcile(routes, desired);
    SecondPassKeeps(routes, desired, Names(Listed(routes)) + Names(desired));
  }

  /** An engine route that lost its handlers, for an app that is not desired, outlives the pass. */
  lemma DriftOutlivesPass(name: string)
    ensures var drifted := Obj(map["@id" := Str(RouteId(name))]);
            UniqueIds([drifted]) && Drifted(drifted, []) && Reconciled([drifted], []) != Statics([drifted])
  {
    var drifted := Obj(map["@id" := Str(RouteId(name))]);
    assert "@id" != "handle";
    assert Id(drifted) == Some(RouteId(name)) && Get(drifted, "handle") == None;
    IdIsOwned(name);
    assert ExtractUpstreamPort(drifted) == None;
    var routes := [drifted];
    assert Drifted(routes[0], []);
    ReconciledIffNoDrift(routes, []);
    assert BuiltReversed([]) + Statics(routes) == Statics(routes);
  }
}
