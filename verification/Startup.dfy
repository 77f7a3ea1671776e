/** What the server sets up from an accepted configuration, and where it sends a request. */
module Startup {
  import opened Wrappers
  import opened Addresses
  import opened Config
  import opened ConfigFile
  import Routing
  import Schemes
  import ServerBlock
  import StaticFiles

  // ---- Pools ----

  /** The pools of the first `k` upstreams, by name; an upstream without servers gets none. */
  function PoolsOf(upstreams: seq<Upstream>, k: nat): map<string, seq<SocketAddr>>
    requires k <= |upstreams|
  {
    if k == 0 then map[]
    else if upstreams[k - 1].servers == [] then PoolsOf(upstreams, k - 1)
    else PoolsOf(upstreams, k - 1)[upstreams[k - 1].name := upstreams[k - 1].servers]
  }

  /** The loop of `WorkerHttp::new`. */
  method NewPools(http: HttpConfig) returns (pools: map<string, seq<SocketAddr>>)
    ensures pools == PoolsOf(http.upstreams, |http.upstreams|)
  {
    pools := map[];
    for i := 0 to |http.upstreams|
      invariant pools == PoolsOf(http.upstreams, i)
    {
      if http.upstreams[i].servers != [] {
        pools := pools[http.upstreams[i].name := http.upstreams[i].servers];
      }
    }
  }

  /** In an accepted configuration the pools are the upstreams, each with its own servers. */
  lemma {:induction false} PoolsAreUpstreams(h: HttpConfig, k: nat)
    requires HttpReady(h) && k <= |h.upstreams|
    ensures forall name | name in PoolsOf(h.upstreams, k) :: HasUpstream(h.upstreams[..k], name)
    ensures forall i | 0 <= i < k ::
              h.upstreams[i].name in PoolsOf(h.upstreams, k)
              && PoolsOf(h.upstreams, k)[h.upstreams[i].name] == h.upstreams[i].servers != []
    decreases k
  {
    if k > 0 {
      PoolsAreUpstreams(h, k - 1);
      assert UpstreamReady(h.upstreams[k - 1]);
      forall name | name in PoolsOf(h.upstreams, k) ensures HasUpstream(h.upstreams[..k], name) {
        if name == h.upstreams[k - 1].name {
          assert h.upstreams[..k][k - 1].name == name;
        } else {
          var before := h.upstreams[..k - 1];
          assert HasUpstream(before, name);
          var i :| 0 <= i < |before| && before[i].name == name;
          assert h.upstreams[..k][i].name == name;
        }
      }
    }
  }

  // ---- Probes ----

  datatype Probe = Probe(upstream: string, scheme: ProxyScheme, client: Schemes.Client, servers: seq<SocketAddr>, check: HealthCheck)

  /** The probe that `spawn` starts for an upstream, if any. */
  function ProbeFor(u: Upstream, configs: map<string, Schemes.Ref>, pools: map<string, seq<SocketAddr>>): Option<Probe> {
    if u.healthCheck.None? || u.name !in configs || u.name !in pools then None
    else Some(Probe(u.name, configs[u.name].scheme, Schemes.ClientForProbe(configs[u.name]), pools[u.name], u.healthCheck.value))
  }

  /** The probes started for the first `k` upstreams, in order. */
  function ProbesOf(upstreams: seq<Upstream>, k: nat, configs: map<string, Schemes.Ref>, pools: map<string, seq<SocketAddr>>): seq<Probe>
    requires k <= |upstreams|
  {
    if k == 0 then []
    else match ProbeFor(upstreams[k - 1], configs, pools)
      case None => ProbesOf(upstreams, k - 1, configs, pools)
      case Some(probe) => ProbesOf(upstreams, k - 1, configs, pools) + [probe]
  }

  /** The loop of `spawn`, with its three reasons to pass over an upstream. */
  method Spawn(http: HttpConfig, pools: map<string, seq<SocketAddr>>) returns (probes: seq<Probe>)
    ensures probes == ProbesOf(http.upstreams, |http.upstreams|, Schemes.FirstRefs(Schemes.Refs(http)), pools)
  {
    var configs := Schemes.CollectProbeConfigs(http);
    probes := [];
    for i := 0 to |http.upstreams|
      invariant probes == ProbesOf(http.upstreams, i, configs, pools)
    {
      var upstream := http.upstreams[i];
      if upstream.healthCheck.None? {
        continue;
      }
      if upstream.name !in configs {
        continue;
      }
      if upstream.name !in pools {
        continue;
      }
      var config := configs[upstream.name];
      var client := Schemes.ClientForProbe(config);
      probes := probes + [Probe(upstream.name, config.scheme, client, pools[upstream.name], upstream.healthCheck.value)];
    }
  }

  lemma {:induction false} ProbesOfAreProbes(upstreams: seq<Upstream>, k: nat, configs: map<string, Schemes.Ref>,
                                             pools: map<string, seq<SocketAddr>>, probe: Probe)
    requires k <= |upstreams|
    ensures probe in ProbesOf(upstreams, k, configs, pools)
            <==> exists i | 0 <= i < k :: ProbeFor(upstreams[i], configs, pools) == Some(probe)
  {
    if k > 0 {
      ProbesOfAreProbes(upstreams, k - 1, configs, pools, probe);
    }
  }

  /**
   * In an accepted configuration an upstream is probed exactly when it has a health check and
   * some location refers to it; the probe asks the upstream's own servers, with the client of
   * every such location.
   */
  lemma ProbeExactly(c: Config, k: nat)
    requires ConfigReady(c) && k < |c.http.upstreams|
    ensures
      var u := c.http.upstreams[k];
      var probe := ProbeFor(u, Schemes.FirstRefs(Schemes.Refs(c.http)), PoolsOf(c.http.upstreams, |c.http.upstreams|));
      && (probe.Some? <==> u.healthCheck.Some? && exists i: nat, j: nat :: Schemes.RefersTo(c.http, i, j, u.name))
      && (probe.Some? ==> probe.value.upstream == u.name && probe.value.servers == u.servers && Some(probe.value.check) == u.healthCheck)
      && (probe.Some? ==> forall i: nat, j: nat | Schemes.RefersTo(c.http, i, j, u.name) ::
            var pass := c.http.servers[i].locations[j].action.pass;
            && probe.value.client == Schemes.ClientFor(pass) && Schemes.Fits(probe.value.client, pass)
            && probe.value.scheme == pass.scheme)
  {
    var h, u := c.http, c.http.upstreams[k];
    PoolsAreUpstreams(h, |h.upstreams|);
    forall i: nat, j: nat | Schemes.RefersTo(h, i, j, u.name)
      ensures u.name in Schemes.FirstRefs(Schemes.Refs(h))
              && Schemes.ClientForProbe(Schemes.FirstRefs(Schemes.Refs(h))[u.name])
                 == Schemes.ClientFor(h.servers[i].locations[j].action.pass)
              && Schemes.FirstRefs(Schemes.Refs(h))[u.name].scheme == h.servers[i].locations[j].action.pass.scheme
              && Schemes.Fits(Schemes.ClientFor(h.servers[i].locations[j].action.pass), h.servers[i].locations[j].action.pass)
    {
      Schemes.ProbeUsesTheSameClient(h, i, j, u.name);
    }
    if u.name in Schemes.FirstRefs(Schemes.Refs(h)) {
      var i, j := Schemes.ReferringLocation(h, u.name);
      assert Schemes.RefersTo(h, i, j, u.name);
    }
  }

  // ---- Requests ----

  datatype Route =
    | ForwardProxy
    | NotFound
    | Answer(status: nat, body: string)
    | ToPool(name: string, servers: seq<SocketAddr>, scheme: ProxyScheme, client: Schemes.Client)
    | UnknownUpstream(name: string)
    | ToAddress(addr: SocketAddr, scheme: ProxyScheme, client: Schemes.Client)
    | ToFile(relative: Option<string>, root: string, index: seq<string>)

  /** `return_response`: a status that is not one of HTTP's becomes 500. */
  function StatusSent(status: nat): nat {
    if status < 100 || status >= 1000 then 500 else status
  }

  /** The branches of `dispatch`. */
  function Dispatch(server: Server, path: string, pools: map<string, seq<SocketAddr>>): Route {
    if server.forwardProxy then ForwardProxy else
    match Routing.MatchLocation(path, server.locations)
    case None => NotFound
    case Some(loc) =>
      match loc.action
      case Return(status, body) => Answer(StatusSent(status), body)
      case Proxy(pass) =>
        (match pass.target
         case ToUpstream(name) =>
           if name in pools then ToPool(name, pools[name], pass.scheme, Schemes.ClientFor(pass)) else UnknownUpstream(name)
         case Direct(addr) => ToAddress(addr, pass.scheme, Schemes.ClientFor(pass)))
      case Static(root, index) => ToFile(StaticFiles.UriToRelative(loc.path, path), root, index)
  }

  /** The best location of a request names upstream `name`. */
  ghost predicate Wants(server: Server, path: string, name: string) {
    var best := Routing.MatchLocation(path, server.locations);
    !server.forwardProxy && best.Some? && best.value.action.Proxy? && best.value.action.pass.target == ToUpstream(name)
  }

  /**
   * The route of a request is that of the best location `i`: its own body and, if it has three
   * digits, status; its own address or upstream with a client that fits; or its own root and
   * index with the path that follows the location's, as joined to any root.
   */
  lemma DispatchFollowsBest(server: Server, path: string, pools: map<string, seq<SocketAddr>>, i: nat, root: seq<string>)
    requires !server.forwardProxy && Routing.IsBest(path, server.locations, i)
    ensures
      var loc, route := server.locations[i], Dispatch(server, path, pools);
      match loc.action
      case Return(status, body) =>
        route.Answer? && route.body == body && route.status == (if 100 <= status <= 999 then status else 500)
      case Proxy(pass) =>
        (match pass.target
         case Direct(addr) =>
           route.ToAddress? && route.addr == addr && route.scheme == pass.scheme && Schemes.Fits(route.client, pass)
         case ToUpstream(name) =>
           if name in pools
           then
             && route.ToPool? && route.name == name && route.servers == pools[name]
             && route.scheme == pass.scheme && Schemes.Fits(route.client, pass)
           else route == UnknownUpstream(name))
      case Static(files, index) =>
        && route.ToFile? && route.root == files && route.index == index && route.relative.Some?
        && Routing.Wanted(loc.path) <= Routing.Split(path)
        && StaticFiles.Joined(root, Routing.Split(route.relative.value))
           == StaticFiles.Joined(root, Routing.Split(path)[|Routing.Wanted(loc.path)|..])
  {
    BestIsUnique(path, server.locations, i);
    StaticFiles.FileOfRequest(path, server.locations, root);
  }

  lemma BestIsUnique(path: string, locations: seq<Location>, i: nat)
    requires Routing.IsBest(path, locations, i)
    ensures Routing.MatchLocation(path, locations) == Some(locations[i])
  {
    var j := Routing.MatchLocationIsBest(path, locations);
    assert Routing.LocationPrefixMatches(path, locations[i].path);
  }

  /**
   * With an accepted configuration: a request whose best location names an upstream goes to
   * the servers of that upstream exactly when it is declared, which the builder does not
   * check, and there is at least one; "not found" is answered exactly when no location
   * matches; a static location always yields a relative path and an index.
   */
  lemma DispatchOfAccepted(c: Config, s: nat, path: string)
    requires ConfigReady(c) && s < |c.http.servers|
    ensures
      var server := c.http.servers[s];
      var route := Dispatch(server, path, PoolsOf(c.http.upstreams, |c.http.upstreams|));
      && (forall k | 0 <= k < |c.http.upstreams| && Wants(server, path, c.http.upstreams[k].name) ::
            route.ToPool? && route.servers == c.http.upstreams[k].servers != [])
      && (forall name | Wants(server, path, name) && !HasUpstream(c.http.upstreams, name) :: route == UnknownUpstream(name))
      && (route.ToPool? || route.UnknownUpstream? ==> Wants(server, path, route.name))
      && (route.ToFile? ==> route.relative.Some? && route.index != [])
      && (route.NotFound? <==> !server.forwardProxy && Routing.NoneMatches(path, server.locations, |server.locations|))
      && (route.ForwardProxy? ==> server.locations == [])
  {
    var h, server := c.http, c.http.servers[s];
    PoolsAreUpstreams(h, |h.upstreams|);
    assert h.upstreams[..|h.upstreams|] == h.upstreams;
    var i := Routing.MatchLocationIsBest(path, server.locations);
    if !server.forwardProxy && Routing.MatchLocation(path, server.locations).Some? {
      assert ServerBlock.ServerReady(server) && ServerBlock.LocationReady(server.locations[i]);
      StaticFiles.FileOfRequest(path, server.locations, []);
    }
  }
}
