/** The JSON of an app route in Caddy: what the engine writes, and how it reads a route back. */
module CaddyJson {
  import opened Wrappers
  import opened Text

  datatype Value =
    | Null
    | Bool(bool)
    | Number(int)
    | Str(text: string)
    | Arr(items: seq<Value>)
    | Obj(fields: map<string, Value>)

  type Port = n: nat | n <= 65535

  datatype AppRoute = AppRoute(name: string, hostPort: Port, subdomain: Option<string>)

  const ROUTE_ID_PREFIX := "nasty-app-"

  // ---- Looking into a value ----

  function Get(v: Value, key: string): Option<Value> {
    if v.Obj? && key in v.fields then Some(v.fields[key]) else None
  }

  function AsArray(v: Option<Value>): Option<seq<Value>> {
    if v.Some? && v.value.Arr? then Some(v.value.items) else None
  }

  function AsStr(v: Option<Value>): Option<string> {
    if v.Some? && v.value.Str? then Some(v.value.text) else None
  }

  // ---- Building ----

  function RouteId(name: string): string {
    ROUTE_ID_PREFIX + name
  }

  function Dial(port: Port): string {
    "127.0.0.1" + ":" + Show(port)
  }

  function RealIp(): Value {
    Obj(map["X-Real-Ip" := Arr([Str("{http.request.remote.host}")])])
  }

  function ReverseProxy(port: Port): Value {
    Obj(map[
      "handler" := Str("reverse_proxy"),
      "upstreams" := Arr([Obj(map["dial" := Str(Dial(port))])]),
      "headers" := Obj(map["request" := Obj(map["set" := RealIp()])]),
      "stream_close_delay" := Str("30m")])
  }

  function StripPrefix(name: string): Value {
    Obj(map["handler" := Str("rewrite"), "strip_path_prefix" := Str("/apps/" + name)])
  }

  function Matcher(route: AppRoute): Value {
    match route.subdomain
    case Some(host) => Obj(map["host" := Arr([Str(host)])])
    case None => Obj(map["path" := Arr([Str("/apps/" + route.name + "/*")])])
  }

  function InnerHandles(route: AppRoute): seq<Value> {
    if route.subdomain.Some? then [ReverseProxy(route.hostPort)]
    else [StripPrefix(route.name), ReverseProxy(route.hostPort)]
  }

  function Subroute(handles: seq<Value>): Value {
    Obj(map["handler" := Str("subroute"), "routes" := Arr([Obj(map["handle" := Arr(handles)])])])
  }

  /** `build_route_json`. */
  function BuildRouteJson(route: AppRoute): Value {
    Obj(map[
      "@id" := Str(RouteId(route.name)),
      "match" := Arr([Matcher(route)]),
      "handle" := Arr([Subroute(InnerHandles(route))]),
      "terminal" := Bool(true)])
  }

  // ---- Reading back ----

  /** How a walk over handlers goes on: a port ends it, and so does a missing field. */
  datatype Walk = Found(port: Port) | GiveUp | GoOn

  function ToPort(digits: Option<string>): Walk {
    if digits.None? then GoOn else
    var p := ParseUnsigned(digits.value, 65535);
    if p.Some? then Found(p.value) else GoOn
  }

  function WalkHandle(h: Value): Walk {
    if AsStr(Get(h, "handler")) != Some("reverse_proxy") then GoOn else
    var upstreams := AsArray(Get(h, "upstreams"));
    if upstreams.None? || |upstreams.value| == 0 then GiveUp else
    var dial := AsStr(Get(upstreams.value[0], "dial"));
    if dial.None? then GiveUp else ToPort(AfterLast(dial.value, ':'))
  }

  function WalkHandles(hs: seq<Value>): Walk {
    if |hs| == 0 then GoOn else
    var w := WalkHandle(hs[0]);
    if w.GoOn? then WalkHandles(hs[1..]) else w
  }

  function WalkRoutes(rs: seq<Value>): Walk {
    if |rs| == 0 then GoOn else
    var handles := AsArray(Get(rs[0], "handle"));
    if handles.None? then GiveUp else
    var w := WalkHandles(handles.value);
    if w.GoOn? then WalkRoutes(rs[1..]) else w
  }

  function WalkOuter(hs: seq<Value>): Walk {
    if |hs| == 0 then GoOn else
    var routes := AsArray(Get(hs[0], "routes"));
    if routes.None? then GiveUp else
    var w := WalkRoutes(routes.value);
    if w.GoOn? then WalkOuter(hs[1..]) else w
  }

  /** `extract_upstream_port`. */
  function ExtractUpstreamPort(route: Value): Option<Port> {
    var handles := AsArray(Get(route, "handle"));
    if handles.None? then None else
    var w := WalkOuter(handles.value);
    if w.Found? then Some(w.port) else None
  }

  function FirstHost(matchers: seq<Value>): Option<string> {
    if |matchers| == 0 then None else
    var hosts := AsArray(Get(matchers[0], "host"));
    if hosts.Some? && |hosts.value| > 0 && hosts.value[0].Str? then Some(hosts.value[0].text)
    else FirstHost(matchers[1..])
  }

  /** `extract_route_host`. */
  function ExtractRouteHost(route: Value): Option<string> {
    var matchers := AsArray(Get(route, "match"));
    if matchers.None? then None else FirstHost(matchers.value)
  }

  function Id(route: Value): Option<string> {
    AsStr(Get(route, "@id"))
  }

  /** The route belongs to the engine. */
  predicate Owned(route: Value) {
    Id(route).Some? && StartsWith(Id(route).value, ROUTE_ID_PREFIX)
  }

  function NameOf(route: Value): string
    requires Owned(route)
  {
    Id(route).value[|ROUTE_ID_PREFIX|..]
  }

  /** One turn of the listing loop: the app route that a Caddy route stands for, if it does. */
  function ReadRoute(route: Value): Option<AppRoute> {
    if !Owned(route) then None else
    var port := ExtractUpstreamPort(route);
    if port.None? then None else Some(AppRoute(NameOf(route), port.value, ExtractRouteHost(route)))
  }

  // ---- The round trip ----

  lemma ReverseProxyFields(port: Port)
    ensures AsStr(Get(ReverseProxy(port), "handler")) == Some("reverse_proxy")
    ensures AsArray(Get(ReverseProxy(port), "upstreams")) == Some([Obj(map["dial" := Str(Dial(port))])])
  {
  }

  lemma DialReadsBack(port: Port)
    ensures ToPort(AfterLast(Dial(port), ':')) == Found(port)
  {
    ShowIsDecimal(port);
    AfterLastIs("127.0.0.1", ':', Show(port));
    ParseInvertsShow(port, 65535);
  }

  lemma ProxyIsFound(port: Port)
    ensures WalkHandle(ReverseProxy(port)) == Found(port)
  {
    ReverseProxyFields(port);
    DialReadsBack(port);
  }

  lemma RewriteIsSkipped(name: string)
    ensures WalkHandle(StripPrefix(name)) == GoOn
  {
  }

  lemma HandlesFindPort(route: AppRoute)
    ensures WalkHandles(InnerHandles(route)) == Found(route.hostPort)
  {
    var proxy := ReverseProxy(route.hostPort);
    ProxyIsFound(route.hostPort);
    assert WalkHandles([proxy]) == Found(route.hostPort);
    if route.subdomain.None? {
      RewriteIsSkipped(route.name);
      assert InnerHandles(route)[1..] == [proxy];
    }
  }

  lemma SubrouteFindsPort(route: AppRoute)
    ensures WalkOuter([Subroute(InnerHandles(route))]) == Found(route.hostPort)
  {
    var handles := InnerHandles(route);
    HandlesFindPort(route);
    var inner := Obj(map["handle" := Arr(handles)]);
    assert AsArray(Get(inner, "handle")) == Some(handles);
    assert WalkRoutes([inner]) == Found(route.hostPort);
    assert AsArray(Get(Subroute(handles), "routes")) == Some([inner]);
  }

  lemma MatcherGivesHost(route: AppRoute)
    ensures FirstHost([Matcher(route)]) == route.subdomain
  {
  }

  lemma BuiltFields(route: AppRoute)
    ensures Id(BuildRouteJson(route)) == Some(RouteId(route.name))
    ensures AsArray(Get(BuildRouteJson(route), "match")) == Some([Matcher(route)])
    ensures AsArray(Get(BuildRouteJson(route), "handle")) == Some([Subroute(InnerHandles(route))])
  {
  }

  lemma IdIsOwned(name: string)
    ensures StartsWith(RouteId(name), ROUTE_ID_PREFIX)
    ensures RouteId(name)[|ROUTE_ID_PREFIX|..] == name
  {
  }

  /** Reading a route the engine built gives back its name, its port and its mode. */
  lemma ReadInvertsBuild(route: AppRoute)
    ensures ReadRoute(BuildRouteJson(route)) == Some(route)
  {
    BuiltFields(route);
    IdIsOwned(route.name);
    SubrouteFindsPort(route);
    MatcherGivesHost(route);
  }
}
