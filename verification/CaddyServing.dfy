/**
 What a built route does with a request, by Caddy's reading of the JSON: a route applies when one of its
 matchers does, and its handlers run in order until one answers.
 */
module CaddyServing {
  import opened Wrappers
  import opened Text
  import opened CaddyJson

  /** A handler passes the request on, sends it to an upstream, or does something else. */
  datatype Handled = PassedOn(path: string) | Proxied(address: string, path: string) | Other

  // ---- Matching ----

  /** A pattern ending in a star matches what starts with the rest of it. */
  predicate PathMatches(pattern: string, path: string) {
    if |pattern| > 0 && pattern[|pattern| - 1] == '*'
    then StartsWith(path, pattern[..|pattern| - 1])
    else path == pattern
  }

  predicate HostsAccept(hosts: Value, host: string) {
    hosts.Arr? && Str(host) in hosts.items
  }

  predicate PathsAccept(paths: Value, path: string) {
    paths.Arr? && exists v :: v in paths.items && v.Str? && PathMatches(v.text, path)
  }

  /** A matcher applies when each condition it has is met. */
  predicate Applies(matcher: Value, host: string, path: string) {
    && matcher.Obj?
    && ("host" in matcher.fields ==> HostsAccept(matcher.fields["host"], host))
    && ("path" in matcher.fields ==> PathsAccept(matcher.fields["path"], path))
  }

  predicate RouteApplies(route: Value, host: string, path: string) {
    var matchers := AsArray(Get(route, "match"));
    matchers.Some? && exists m :: m in matchers.value && Applies(m, host, path)
  }

  // ---- Handling ----

  function Handle(h: Value, path: string): Handled {
    var kind := AsStr(Get(h, "handler"));
    if kind == Some("rewrite") then
      var prefix := AsStr(Get(h, "strip_path_prefix"));
      PassedOn(if prefix.Some? && StartsWith(path, prefix.value) then path[|prefix.value|..] else path)
    else if kind == Some("reverse_proxy") then
      var upstreams := AsArray(Get(h, "upstreams"));
      if upstreams.None? || |upstreams.value| == 0 then Other else
      var dial := AsStr(Get(upstreams.value[0], "dial"));
      if dial.None? then Other else Proxied(dial.value, path)
    else Other
  }

  function HandleAll(hs: seq<Value>, path: string): Handled {
    if |hs| == 0 then PassedOn(path) else
    var first := Handle(hs[0], path);
    if first.PassedOn? then HandleAll(hs[1..], first.path) else first
  }

  /** The routes of a subroute that carry no matchers of their own. */
  function HandleRoutes(rs: seq<Value>, path: string): Handled {
    if |rs| == 0 then PassedOn(path) else
    var handles := AsArray(Get(rs[0], "handle"));
    if handles.None? || Get(rs[0], "match").Some? then Other else
    var first := HandleAll(handles.value, path);
    if first.PassedOn? then HandleRoutes(rs[1..], first.path) else first
  }

  /** Where a route with one subroute sends a request: the address and the path it arrives with. */
  function SentTo(route: Value, host: string, path: string): Handled {
    if !RouteApplies(route, host, path) then PassedOn(path) else
    var handles := AsArray(Get(route, "handle"));
    if handles.None? || |handles.value| != 1 then Other
    else if AsStr(Get(handles.value[0], "handler")) != Some("subroute") then Other else
    var routes := AsArray(Get(handles.value[0], "routes"));
    if routes.None? then Other else HandleRoutes(routes.value, path)
  }

  // ---- What the built routes do ----

  lemma ProxySends(port: Port, path: string)
    ensures Handle(ReverseProxy(port), path) == Proxied("127.0.0.1:" + Show(port), path)
  {
    ReverseProxyFields(port);
    assert Dial(port) == "127.0.0.1:" + Show(port);
    hide ReverseProxy, Dial, Show;
  }

  lemma StripPasses(name: string, rest: string)
    ensures Handle(StripPrefix(name), "/apps/" + name + rest) == PassedOn(rest)
  {
    var prefix := "/apps/" + name;
    assert Get(StripPrefix(name), "strip_path_prefix") == Some(Str(prefix));
    assert Get(StripPrefix(name), "handler") == Some(Str("rewrite"));
    hide StripPrefix;
    assert (prefix + rest)[..|prefix|] == prefix && (prefix + rest)[|prefix|..] == rest;
  }

  lemma SubrouteFields(handles: seq<Value>)
    ensures AsStr(Get(Subroute(handles), "handler")) == Some("subroute")
    ensures AsArray(Get(Subroute(handles), "routes")) == Some([Obj(map["handle" := Arr(handles)])])
  {
  }

  lemma InnerRoute(handles: seq<Value>, path: string)
    requires !HandleAll(handles, path).PassedOn?
    ensures HandleRoutes([Obj(map["handle" := Arr(handles)])], path) == HandleAll(handles, path)
  {
    var inner := Obj(map["handle" := Arr(handles)]);
    assert AsArray(Get(inner, "handle")) == Some(handles) && Get(inner, "match").None?;
    hide HandleAll;
  }

  lemma BuiltSends(route: AppRoute, host: string, path: string)
    requires RouteApplies(BuildRouteJson(route), host, path) && !HandleAll(InnerHandles(route), path).PassedOn?
    ensures SentTo(BuildRouteJson(route), host, path) == HandleAll(InnerHandles(route), path)
  {
    BuiltFields(route);
    SubrouteFields(InnerHandles(route));
    InnerRoute(InnerHandles(route), path);
    hide BuildRouteJson, InnerHandles, HandleAll, HandleRoutes, RouteApplies, Subroute;
  }

  /** The value found by following field names from an object. */
  function At(v: Value, path: seq<string>): Option<Value> {
    if |path| == 0 then Some(v)
    else if !v.Obj? || path[0] !in v.fields then None
    else At(v.fields[path[0]], path[1..])
  }

  /** A built route carries the id of its app and ends the matching of routes. */
  lemma BuiltCarries(route: AppRoute)
    ensures Get(BuildRouteJson(route), "@id") == Some(Str("nasty-app-" + route.name))
    ensures Get(BuildRouteJson(route), "terminal") == Some(Bool(true))
  {
  }

  /** The upstream is told the address of the client, and a reload keeps open streams for half an hour. */
  lemma ProxyCarries(port: Port)
    ensures At(ReverseProxy(port), ["headers", "request", "set", "X-Real-Ip"]) ==
            Some(Arr([Str("{http.request.remote.host}")]))
    ensures At(ReverseProxy(port), ["stream_close_delay"]) == Some(Str("30m"))
  {
    var set0 := RealIp();
    var request := Obj(map["set" := set0]);
    var headers := Obj(map["request" := request]);
    assert At(set0, ["X-Real-Ip"]) == Some(Arr([Str("{http.request.remote.host}")]));
    assert ["set", "X-Real-Ip"][1..] == ["X-Real-Ip"];
    assert At(request, ["set", "X-Real-Ip"]) == At(set0, ["X-Real-Ip"]);
    assert ["request", "set", "X-Real-Ip"][1..] == ["set", "X-Real-Ip"];
    assert At(headers, ["request", "set", "X-Real-Ip"]) == At(request, ["set", "X-Real-Ip"]);
    assert ["headers", "request", "set", "X-Real-Ip"][1..] == ["request", "set", "X-Real-Ip"];
  }

  lemma OneMatcher(route: AppRoute, host: string, path: string)
    ensures RouteApplies(BuildRouteJson(route), host, path) <==> Applies(Matcher(route), host, path)
  {
    BuiltFields(route);
    hide BuildRouteJson, Applies, Matcher;
    assert [Matcher(route)][0] == Matcher(route);
  }

  lemma HostMatcher(host: string, asked: string, path: string)
    ensures Applies(Obj(map["host" := Arr([Str(host)])]), asked, path) <==> asked == host
  {
    assert [Str(host)][0] == Str(host);
  }

  lemma OnePath(pattern: string, path: string)
    ensures PathsAccept(Arr([Str(pattern)]), path) <==> PathMatches(pattern, path)
  {
    hide PathMatches;
    assert [Str(pattern)][0] == Str(pattern);
  }

  lemma PathMatcher(base: string, host: string, path: string)
    ensures Applies(Obj(map["path" := Arr([Str(base + "*")])]), host, path) <==> base <= path
  {
    var pattern := base + "*";
    OnePath(pattern, path);
    assert pattern[..|pattern| - 1] == base && pattern[|pattern| - 1] == '*';
    hide PathsAccept;
  }

  lemma BuiltAppliesIff(route: AppRoute, host: string, path: string)
    ensures RouteApplies(BuildRouteJson(route), host, path) <==>
            if route.subdomain.Some? then host == route.subdomain.value else "/apps/" + route.name + "/" <= path
  {
    hide RouteApplies, BuildRouteJson, Applies;
    OneMatcher(route, host, path);
    if route.subdomain.Some? {
      HostMatcher(route.subdomain.value, host, path);
    } else {
      assert "/apps/" + route.name + "/*" == "/apps/" + route.name + "/" + "*";
      PathMatcher("/apps/" + route.name + "/", host, path);
    }
  }

  /** A route of path mode takes the paths below the app's own and sends them on with that part taken off. */
  lemma PathModeServes(route: AppRoute, host: string, path: string)
    requires route.subdomain.None?
    ensures forall rest :: path == "/apps/" + route.name + "/" + rest ==>
              SentTo(BuildRouteJson(route), host, path) == Proxied("127.0.0.1:" + Show(route.hostPort), "/" + rest)
    ensures !("/apps/" + route.name + "/" <= path) ==> SentTo(BuildRouteJson(route), host, path) == PassedOn(path)
  {
    BuiltAppliesIff(route, host, path);
    forall rest | path == "/apps/" + route.name + "/" + rest
      ensures SentTo(BuildRouteJson(route), host, path) == Proxied("127.0.0.1:" + Show(route.hostPort), "/" + rest)
    {
      PathModeSends(route, host, rest);
    }
    hide BuildRouteJson, RouteApplies;
  }

  lemma PathModeSends(route: AppRoute, host: string, rest: string)
    requires route.subdomain.None?
    ensures SentTo(BuildRouteJson(route), host, "/apps/" + route.name + "/" + rest) ==
            Proxied("127.0.0.1:" + Show(route.hostPort), "/" + rest)
  {
    var path := "/apps/" + route.name + "/" + rest;
    BuiltAppliesIff(route, host, path);
    var proxy := ReverseProxy(route.hostPort);
    assert path == "/apps/" + route.name + ("/" + rest);
    StripPasses(route.name, "/" + rest);
    ProxySends(route.hostPort, "/" + rest);
    assert HandleAll([proxy], "/" + rest) == Handle(proxy, "/" + rest);
    assert InnerHandles(route)[1..] == [proxy];
    hide BuildRouteJson, RouteApplies, Handle, ReverseProxy, StripPrefix, Show, SentTo;
    BuiltSends(route, host, path);
  }

  /** A route of subdomain mode takes exactly the requests for its host and sends them on as they are. */
  lemma SubdomainModeServes(route: AppRoute, host: string, path: string)
    requires route.subdomain.Some?
    ensures SentTo(BuildRouteJson(route), host, path) ==
            if host == route.subdomain.value then Proxied("127.0.0.1:" + Show(route.hostPort), path)
            else PassedOn(path)
  {
    BuiltAppliesIff(route, host, path);
    if host == route.subdomain.value {
      ProxySends(route.hostPort, path);
      assert HandleAll([ReverseProxy(route.hostPort)], path) == Handle(ReverseProxy(route.hostPort), path);
      BuiltSends(route, host, path);
    }
    hide BuildRouteJson, RouteApplies, Handle, ReverseProxy, Show;
  }
}
