/** The engine's client of Caddy's admin API, with calls that may fail or be carried out without an answer. */
module CaddyAdmin {
  import opened Wrappers
  import opened CaddyJson
  import opened CaddyRoutes

  /** What became of one request: whether Caddy carried it out, and whether its answer reached the engine. */
  datatype Outcome = Outcome(applied: bool, answered: bool)

  /** The outcomes of one reconcile pass, by position in the list that each loop walks. */
  datatype Outcomes = Outcomes(
    list: bool,
    remove: nat -> Outcome,
    find: nat -> bool,
    delete: nat -> Outcome,
    put: nat -> Outcome)
  {
    ghost predicate AllSucceed() {
      && list
      && (forall i :: remove(i).applied)
      && (forall i :: find(i))
      && (forall i :: delete(i).applied)
      && (forall i :: put(i).applied)
    }
  }

  type Answer = Result<(), ()>

  predicate HasId(routes: seq<Value>, id: string) {
    exists i :: 0 <= i < |routes| && Id(routes[i]) == Some(id)
  }

  /** Caddy's status for `DELETE /id/<id>`: 404 when no route carries the id. */
  function DeleteStatus(routes: seq<Value>, id: string, o: Outcome): nat {
    if !o.applied then 500 else if HasId(routes, id) then 200 else 404
  }

  lemma {:induction false} DeletedMissing(routes: seq<Value>, id: string)
    requires !HasId(routes, id)
    ensures Deleted(routes, id) == routes
  {
    if |routes| > 0 {
      assert Id(routes[0]) != Some(id);
      forall i | 0 <= i < |routes[1..]|
        ensures Id(routes[1..][i]) != Some(id)
      {
        assert routes[1..][i] == routes[i + 1];
      }
      DeletedMissing(routes[1..], id);
    }
  }

  // ---- The route list after requests with these outcomes ----

  function Removed(routes: seq<Value>, name: string, o: Outcome): seq<Value> {
    if o.applied then Deleted(routes, RouteId(name)) else routes
  }

  function RouteSet(routes: seq<Value>, route: AppRoute, found: bool, delete: Outcome, put: Outcome): seq<Value> {
    if !found then routes
    else (if put.applied then [BuildRouteJson(route)] else []) + Removed(routes, route.name, delete)
  }

  /** After the first `n` turns of the loop that drops stale routes. */
  function PrunedBy(routes: seq<Value>, existing: seq<AppRoute>, wanted: set<string>, o: Outcomes, n: nat): seq<Value>
    requires n <= |existing|
  {
    if n == 0 then routes
    else
      var before := PrunedBy(routes, existing, wanted, o, n - 1);
      var name := existing[n - 1].name;
      if name in wanted then before else Removed(before, name, o.remove(n - 1))
  }

  /** After the first `n` turns of the loop that sets the desired routes. */
  function SetBy(routes: seq<Value>, desired: seq<AppRoute>, o: Outcomes, n: nat): seq<Value>
    requires n <= |desired|
  {
    if n == 0 then routes
    else RouteSet(SetBy(routes, desired, o, n - 1), desired[n - 1], o.find(n - 1), o.delete(n - 1), o.put(n - 1))
  }

  /** After a reconcile pass; a list that cannot be read counts as empty. */
  function ReplacedBy(routes: seq<Value>, desired: seq<AppRoute>, o: Outcomes): seq<Value> {
    var existing := if o.list then Listed(routes) else [];
    SetBy(PrunedBy(routes, existing, Names(desired), o, |existing|), desired, o, |desired|)
  }

  // ---- When everything succeeds ----

  lemma {:induction false} PrunedByAll(
      routes: seq<Value>, existing: seq<AppRoute>, wanted: set<string>, o: Outcomes, n: nat)
    requires o.AllSucceed() && n <= |existing|
    ensures Pruned(PrunedBy(routes, existing, wanted, o, n), existing[n..], wanted) == Pruned(routes, existing, wanted)
  {
    if n == 0 {
      assert existing[0..] == existing;
    } else {
      PrunedByAll(routes, existing, wanted, o, n - 1);
      assert existing[n - 1..][1..] == existing[n..];
    }
  }

  lemma {:induction false} SetByAll(routes: seq<Value>, desired: seq<AppRoute>, o: Outcomes, n: nat)
    requires o.AllSucceed() && n <= |desired|
    ensures AllSet(SetBy(routes, desired, o, n), desired[n..]) == AllSet(routes, desired)
  {
    if n == 0 {
      assert desired[0..] == desired;
    } else {
      SetByAll(routes, desired, o, n - 1);
      assert desired[n - 1..][1..] == desired[n..];
    }
  }

  /** A pass in which every request is carried out reconciles the list. */
  lemma SuccessReconciles(routes: seq<Value>, desired: seq<AppRoute>, o: Outcomes)
    requires o.AllSucceed()
    ensures ReplacedBy(routes, desired, o) == Reconciled(routes, desired)
  {
    var existing := Listed(routes);
    var pruned := PrunedBy(routes, existing, Names(desired), o, |existing|);
    PrunedByAll(routes, existing, Names(desired), o, |existing|);
    SetByAll(pruned, desired, o, |desired|);
  }

  // ---- Whatever fails ----

  lemma {:induction false} DeletedKeepsStatics(routes: seq<Value>, name: string)
    ensures Statics(Deleted(routes, RouteId(name))) == Statics(routes)
  {
    if |routes| > 0 {
      IdIsOwned(name);
      DeletedKeepsStatics(routes[1..], name);
      var rest := Deleted(routes[1..], RouteId(name));
      assert ([routes[0]] + rest)[1..] == rest;
    }
  }

  lemma {:induction false} DeletedHas(routes: seq<Value>, id: string, x: Value)
    ensures x in Deleted(routes, id) ==> x in routes
    ensures x in routes && Id(x) != Some(id) ==> x in Deleted(routes, id)
  {
    if |routes| > 0 {
      DeletedHas(routes[1..], id, x);
    }
  }

  lemma RouteSetKeepsStatics(routes: seq<Value>, route: AppRoute, found: bool, delete: Outcome, put: Outcome)
    ensures Statics(RouteSet(routes, route, found, delete, put)) == Statics(routes)
  {
    var rest := Removed(routes, route.name, delete);
    DeletedKeepsStatics(routes, route.name);
    BuiltFields(route);
    IdIsOwned(route.name);
    assert ([BuildRouteJson(route)] + rest)[1..] == rest && [] + rest == rest;
  }

  lemma {:induction false} PrunedByKeepsStatics(
      routes: seq<Value>, existing: seq<AppRoute>, wanted: set<string>, o: Outcomes, n: nat)
    requires n <= |existing|
    ensures Statics(PrunedBy(routes, existing, wanted, o, n)) == Statics(routes)
  {
    hide Statics;
    if n > 0 {
      PrunedByKeepsStatics(routes, existing, wanted, o, n - 1);
      DeletedKeepsStatics(PrunedBy(routes, existing, wanted, o, n - 1), existing[n - 1].name);
    }
  }

  lemma {:induction false} SetByKeepsStatics(routes: seq<Value>, desired: seq<AppRoute>, o: Outcomes, n: nat)
    requires n <= |desired|
    ensures Statics(SetBy(routes, desired, o, n)) == Statics(routes)
  {
    hide RouteSet, Statics;
    if n > 0 {
      SetByKeepsStatics(routes, desired, o, n - 1);
      var before, i := SetBy(routes, desired, o, n - 1), n - 1;
      RouteSetKeepsStatics(before, desired[i], o.find(i), o.delete(i), o.put(i));
    }
  }

  /** Whatever fails, the static routes keep their places. */
  lemma FailuresKeepStatics(routes: seq<Value>, desired: seq<AppRoute>, o: Outcomes)
    ensures Statics(ReplacedBy(routes, desired, o)) == Statics(routes)
  {
    var existing := if o.list then Listed(routes) else [];
    PrunedByKeepsStatics(routes, existing, Names(desired), o, |existing|);
    SetByKeepsStatics(PrunedBy(routes, existing, Names(desired), o, |existing|), desired, o, |desired|);
  }

  lemma {:induction false} PrunedByHas(
      routes: seq<Value>, existing: seq<AppRoute>, wanted: set<string>, o: Outcomes, n: nat, x: Value)
    requires n <= |existing| && x in PrunedBy(routes, existing, wanted, o, n)
    ensures x in routes
  {
    if n > 0 {
      DeletedHas(PrunedBy(routes, existing, wanted, o, n - 1), RouteId(existing[n - 1].name), x);
      PrunedByHas(routes, existing, wanted, o, n - 1, x);
    }
  }

  /** `x` is the JSON of one of the first `n` desired routes. */
  ghost predicate BuiltFrom(desired: seq<AppRoute>, n: nat, x: Value) {
    exists i :: 0 <= i < n <= |desired| && x == BuildRouteJson(desired[i])
  }

  lemma {:induction false} SetByHas(routes: seq<Value>, desired: seq<AppRoute>, o: Outcomes, n: nat, x: Value)
    requires n <= |desired| && x in SetBy(routes, desired, o, n)
    ensures x in routes || BuiltFrom(desired, n, x)
  {
    if n > 0 && x != BuildRouteJson(desired[n - 1]) {
      DeletedHas(SetBy(routes, desired, o, n - 1), RouteId(desired[n - 1].name), x);
      SetByHas(routes, desired, o, n - 1, x);
    }
  }

  /** Whatever fails, a route in the list was there before or is the JSON of a desired one. */
  lemma NothingInvented(routes: seq<Value>, desired: seq<AppRoute>, o: Outcomes, x: Value)
    requires x in ReplacedBy(routes, desired, o)
    ensures x in routes || BuiltFrom(desired, |desired|, x)
  {
    var existing := if o.list then Listed(routes) else [];
    var pruned := PrunedBy(routes, existing, Names(desired), o, |existing|);
    SetByHas(pruned, desired, o, |desired|, x);
    if x in pruned {
      PrunedByHas(routes, existing, Names(desired), o, |existing|, x);
    }
  }

  lemma OtherIdsDiffer(a: AppRoute, b: AppRoute)
    requires a.name != b.name
    ensures Id(BuildRouteJson(a)) != Some(RouteId(b.name))
  {
    BuiltFields(a);
    IdIsOwned(a.name);
    IdIsOwned(b.name);
  }

  lemma {:induction false} SetByAccepts(routes: seq<Value>, desired: seq<AppRoute>, o: Outcomes, n: nat, i: nat)
    requires DistinctNames(desired) && i < n <= |desired| && o.find(i) && o.put(i).applied
    ensures BuildRouteJson(desired[i]) in SetBy(routes, desired, o, n)
  {
    hide BuildRouteJson, Id;
    if i < n - 1 {
      SetByAccepts(routes, desired, o, n - 1, i);
      OtherIdsDiffer(desired[i], desired[n - 1]);
      DeletedHas(SetBy(routes, desired, o, n - 1), RouteId(desired[n - 1].name), BuildRouteJson(desired[i]));
    }
  }

  /** A desired route that Caddy accepts is in the list at the end, whatever fails for other apps. */
  lemma AcceptedRouteStays(routes: seq<Value>, desired: seq<AppRoute>, o: Outcomes, i: nat)
    requires DistinctNames(desired) && i < |desired| && o.find(i) && o.put(i).applied
    ensures BuildRouteJson(desired[i]) in ReplacedBy(routes, desired, o)
  {
    var existing := if o.list then Listed(routes) else [];
    SetByAccepts(PrunedBy(routes, existing, Names(desired), o, |existing|), desired, o, |desired|, i);
  }

  // ---- The client ----

  class AdminApi {
    /** The routes of the TLS server, in Caddy. */
    var routes: seq<Value>

    /** `list_app_routes`. */
    method ListAppRoutes(answered: bool) returns (r: Result<seq<AppRoute>, ()>)
      ensures r == if answered then Ok(Listed(routes)) else Err(())
    {
      if !answered {
        return Err(());
      }
      var out := [];
      for i := 0 to |routes|
        invariant out + Listed(routes[i..]) == Listed(routes)
      {
        assert routes[i..][1..] == routes[i + 1..];
        var route := ReadRoute(routes[i]);
        if route.Some? {
          out := out + [route.value];
        }
      }
      assert Listed(routes[|routes|..]) == [] && out + [] == out;
      return Ok(out);
    }

    /** `remove_app_route`: an id that Caddy does not know counts as removed. */
    method RemoveAppRoute(name: string, o: Outcome) returns (r: Answer)
      modifies this
      ensures routes == Removed(old(routes), name, o)
      ensures r.Ok? <==> o.applied && o.answered
      ensures !HasId(old(routes), RouteId(name)) ==> routes == old(routes)
    {
      var status := DeleteStatus(routes, RouteId(name), o);
      if !HasId(routes, RouteId(name)) {
        DeletedMissing(routes, RouteId(name));
      }
      if o.applied {
        routes := Deleted(routes, RouteId(name));
      }
      if !o.answered {
        return Err(());
      }
      if status == 200 || status == 204 {
        r := Ok(());
      } else if status == 404 {
        r := Ok(());
      } else {
        r := Err(());
      }
    }

    /** `set_app_route`: nothing is touched unless the server is found, and a failed delete is ignored. */
    method SetAppRoute(route: AppRoute, found: bool, delete: Outcome, put: Outcome) returns (r: Answer)
      modifies this
      ensures routes == RouteSet(old(routes), route, found, delete, put)
      ensures r.Ok? <==> found && put.applied && put.answered
    {
      if !found {
        return Err(());
      }
      var _ := RemoveAppRoute(route.name, delete);
      assert [] + routes == routes;
      if put.applied {
        routes := [BuildRouteJson(route)] + routes;
      }
      r := if put.applied && put.answered then Ok(()) else Err(());
    }

    /** `replace_app_routes`: failures of single requests are only logged. */
    method ReplaceAppRoutes(desired: seq<AppRoute>, o: Outcomes)
      modifies this
      ensures routes == ReplacedBy(old(routes), desired, o)
    {
      var listed := ListAppRoutes(o.list);
      var existing := if listed.Ok? then listed.value else [];
      var wanted := Names(desired);
      for i := 0 to |existing|
        invariant routes == PrunedBy(old(routes), existing, wanted, o, i)
      {
        if existing[i].name !in wanted {
          var _ := RemoveAppRoute(existing[i].name, o.remove(i));
        }
      }
      ghost var pruned := routes;
      for i := 0 to |desired|
        invariant routes == SetBy(pruned, desired, o, i)
      {
        var _ := SetAppRoute(desired[i], o.find(i), o.delete(i), o.put(i));
      }
    }
  }
}
