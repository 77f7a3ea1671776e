/** A whole configuration file: from text to the configuration the server starts with, or the first error. */
module ConfigFile {
  import opened Wrappers
  import opened Addresses
  import opened Grammar
  import opened Values
  import opened Config
  import UpstreamBlock
  import ServerBlock
  import Schemes

  // ---- events ----

  function EventsStep(connections: nat, st: Stmt): Result<nat, ConfigError> {
    match st
    case Block(_, _, _) => Ok(connections)
    case Directive(name, args) =>
      if name == "worker_connections" then OneU32(ArgValues(args), name) else Err(UnknownDirective(InEvents, name))
  }

  /** `worker_connections` after the first `k` statements. */
  function EventsAfter(stmts: seq<Stmt>, k: nat): Result<nat, ConfigError>
    requires k <= |stmts|
  {
    if k == 0 then Ok(1024) else
    match EventsAfter(stmts, k - 1)
    case Err(e) => Err(e)
    case Ok(n) => EventsStep(n, stmts[k - 1])
  }

  lemma {:induction false} EventsErrorStays(stmts: seq<Stmt>, k: nat)
    requires k <= |stmts|
    ensures EventsAfter(stmts, k).Err? ==> EventsAfter(stmts, |stmts|) == EventsAfter(stmts, k)
    decreases |stmts| - k
  {
    if k < |stmts| {
      EventsErrorStays(stmts, k + 1);
    }
  }

  method ParseEventsBlock(stmts: seq<Stmt>) returns (r: Result<nat, ConfigError>)
    ensures r == EventsAfter(stmts, |stmts|)
  {
    var connections := 1024;
    for i := 0 to |stmts|
      invariant EventsAfter(stmts, i) == Ok(connections)
    {
      EventsErrorStays(stmts, i + 1);
      if stmts[i].Directive? {
        if stmts[i].name != "worker_connections" {
          return Err(UnknownDirective(InEvents, stmts[i].name));
        }
        var n := OneU32(ArgValues(stmts[i].args), "worker_connections");
        if n.Err? {
          return Err(n.error);
        }
        connections := n.value;
      }
    }
    r := Ok(connections);
  }

  // ---- stream ----

  datatype StreamState = StreamState(listen: Option<SocketAddr>, proxyPass: Option<SocketAddr>)

  function StreamServerStep(s: StreamState, st: Stmt, addrOf: AddrParser): Result<StreamState, ConfigError> {
    match st
    case Block(_, _, _) => Ok(s)
    case Directive(name, rawArgs) =>
      var args := ArgValues(rawArgs);
      if name == "listen" then
        if args == [] then Err(ListenNeedsAddress)
        else if |args| > 1 then Err(StreamListenOneAddress)
        else match ListenAddr(args[0], addrOf)
          case Err(e) => Err(e)
          case Ok(addr) => Ok(s.(listen := Some(addr)))
      else if name == "proxy_pass" then
        match OneString(args, name)
        case Err(e) => Err(e)
        case Ok(text) =>
          match ListenAddr(text, addrOf)
          case Err(e) => Err(e)
          case Ok(addr) => Ok(s.(proxyPass := Some(addr)))
      else Err(UnknownDirective(InStreamServer, name))
  }

  function StreamServerAfter(stmts: seq<Stmt>, k: nat, addrOf: AddrParser): Result<StreamState, ConfigError>
    requires k <= |stmts|
  {
    if k == 0 then Ok(StreamState(None, None)) else
    match StreamServerAfter(stmts, k - 1, addrOf)
    case Err(e) => Err(e)
    case Ok(s) => StreamServerStep(s, stmts[k - 1], addrOf)
  }

  function StreamServerOf(stmts: seq<Stmt>, addrOf: AddrParser): Result<StreamServer, ConfigError> {
    match StreamServerAfter(stmts, |stmts|, addrOf)
    case Err(e) => Err(e)
    case Ok(s) =>
      if s.listen.None? then Err(StreamServerNeeds("listen"))
      else if s.proxyPass.None? then Err(StreamServerNeeds("proxy_pass"))
      else Ok(StreamServer(s.listen.value, s.proxyPass.value))
  }

  lemma {:induction false} StreamServerErrorStays(stmts: seq<Stmt>, k: nat, addrOf: AddrParser)
    requires k <= |stmts|
    ensures StreamServerAfter(stmts, k, addrOf).Err? ==>
              StreamServerAfter(stmts, |stmts|, addrOf) == StreamServerAfter(stmts, k, addrOf)
    decreases |stmts| - k
  {
    if k < |stmts| {
      StreamServerErrorStays(stmts, k + 1, addrOf);
    }
  }

  method ParseStreamServerBlock(stmts: seq<Stmt>, addrOf: AddrParser) returns (r: Result<StreamServer, ConfigError>)
    ensures r == StreamServerOf(stmts, addrOf)
  {
    var listen: Option<SocketAddr> := None;
    var proxyPass: Option<SocketAddr> := None;
    for i := 0 to |stmts|
      invariant StreamServerAfter(stmts, i, addrOf) == Ok(StreamState(listen, proxyPass))
    {
      StreamServerErrorStays(stmts, i + 1, addrOf);
      if stmts[i].Directive? {
        var name, args := stmts[i].name, ArgValues(stmts[i].args);
        if name == "listen" {
          if args == [] {
            return Err(ListenNeedsAddress);
          }
          if |args| > 1 {
            return Err(StreamListenOneAddress);
          }
          var addr := ListenAddr(args[0], addrOf);
          if addr.Err? {
            return Err(addr.error);
          }
          listen := Some(addr.value);
        } else if name == "proxy_pass" {
          var text := OneString(args, "proxy_pass");
          if text.Err? {
            return Err(text.error);
          }
          var addr := ListenAddr(text.value, addrOf);
          if addr.Err? {
            return Err(addr.error);
          }
          proxyPass := Some(addr.value);
        } else {
          return Err(UnknownDirective(InStreamServer, name));
        }
      }
    }
    if listen.None? {
      return Err(StreamServerNeeds("listen"));
    }
    if proxyPass.None? {
      return Err(StreamServerNeeds("proxy_pass"));
    }
    r := Ok(StreamServer(listen.value, proxyPass.value));
  }

  function StreamStep(servers: seq<StreamServer>, st: Stmt, addrOf: AddrParser): Result<seq<StreamServer>, ConfigError> {
    match st
    case Directive(_, _) => Err(StreamOnlyServers)
    case Block(name, _, body) =>
      if name != "server" then Err(UnknownBlock(InStream, name)) else
      match StreamServerOf(body, addrOf)
      case Err(e) => Err(e)
      case Ok(s) => Ok(servers + [s])
  }

  function StreamAfter(stmts: seq<Stmt>, k: nat, addrOf: AddrParser): Result<seq<StreamServer>, ConfigError>
    requires k <= |stmts|
  {
    if k == 0 then Ok([]) else
    match StreamAfter(stmts, k - 1, addrOf)
    case Err(e) => Err(e)
    case Ok(servers) => StreamStep(servers, stmts[k - 1], addrOf)
  }

  function StreamOf(stmts: seq<Stmt>, addrOf: AddrParser): Result<seq<StreamServer>, ConfigError> {
    match StreamAfter(stmts, |stmts|, addrOf)
    case Err(e) => Err(e)
    case Ok(servers) => if servers == [] then Err(StreamNeedsServer) else Ok(servers)
  }

  lemma {:induction false} StreamErrorStays(stmts: seq<Stmt>, k: nat, addrOf: AddrParser)
    requires k <= |stmts|
    ensures StreamAfter(stmts, k, addrOf).Err? ==> StreamAfter(stmts, |stmts|, addrOf) == StreamAfter(stmts, k, addrOf)
    decreases |stmts| - k
  {
    if k < |stmts| {
      StreamErrorStays(stmts, k + 1, addrOf);
    }
  }

  method ParseStreamBlock(stmts: seq<Stmt>, addrOf: AddrParser) returns (r: Result<seq<StreamServer>, ConfigError>)
    ensures r == StreamOf(stmts, addrOf)
  {
    var servers: seq<StreamServer> := [];
    for i := 0 to |stmts|
      invariant StreamAfter(stmts, i, addrOf) == Ok(servers)
    {
      StreamErrorStays(stmts, i + 1, addrOf);
      if stmts[i].Directive? {
        return Err(StreamOnlyServers);
      }
      if stmts[i].name != "server" {
        return Err(UnknownBlock(InStream, stmts[i].name));
      }
      var server := ParseStreamServerBlock(stmts[i].body, addrOf);
      if server.Err? {
        return Err(server.error);
      }
      servers := servers + [server.value];
    }
    if servers == [] {
      return Err(StreamNeedsServer);
    }
    r := Ok(servers);
  }

  // ---- http ----

  predicate HasUpstream(upstreams: seq<Upstream>, name: string) {
    exists i | 0 <= i < |upstreams| :: upstreams[i].name == name
  }

  function HttpStep(h: HttpConfig, st: Stmt, addrOf: AddrParser): Result<HttpConfig, ConfigError> {
    match st
    case Directive(name, args) =>
      if name != "access_log" then Err(UnknownDirective(InHttp, name)) else
      (match AccessLogArgs(ArgValues(args))
       case Err(e) => Err(e)
       case Ok(a) => Ok(h.(accessLog := Some(a))))
    case Block(name, head, body) =>
      if name == "server" then
        match ServerBlock.ServerOf(body, addrOf)
        case Err(e) => Err(e)
        case Ok(s) => Ok(h.(servers := h.servers + [s]))
      else if name == "upstream" then
        if head.None? then Err(UpstreamNeedsName)
        else
          var upstream := ArgToString(head.value);
          if HasUpstream(h.upstreams, upstream) then Err(DuplicateUpstream(upstream)) else
          match UpstreamBlock.UpstreamOf(upstream, body, addrOf)
          case Err(e) => Err(e)
          case Ok(u) => Ok(h.(upstreams := h.upstreams + [u]))
      else Err(UnknownBlock(InHttp, name))
  }

  /** What the first `k` statements of an http block mean. */
  function HttpAfter(stmts: seq<Stmt>, k: nat, addrOf: AddrParser): Result<HttpConfig, ConfigError>
    requires k <= |stmts|
  {
    if k == 0 then Ok(HttpConfig(None, [], [])) else
    match HttpAfter(stmts, k - 1, addrOf)
    case Err(e) => Err(e)
    case Ok(h) => HttpStep(h, stmts[k - 1], addrOf)
  }

  lemma {:induction false} HttpErrorStays(stmts: seq<Stmt>, k: nat, addrOf: AddrParser)
    requires k <= |stmts|
    ensures HttpAfter(stmts, k, addrOf).Err? ==> HttpAfter(stmts, |stmts|, addrOf) == HttpAfter(stmts, k, addrOf)
    decreases |stmts| - k
  {
    hide HttpStep;
    if k < |stmts| {
      HttpErrorStays(stmts, k + 1, addrOf);
    }
  }

  method ParseHttpBlock(stmts: seq<Stmt>, addrOf: AddrParser) returns (r: Result<HttpConfig, ConfigError>)
    ensures r == HttpAfter(stmts, |stmts|, addrOf)
  {
    var accessLog: Option<AccessLogSetting> := None;
    var upstreams: seq<Upstream> := [];
    var servers: seq<Server> := [];
    for i := 0 to |stmts|
      invariant HttpAfter(stmts, i, addrOf) == Ok(HttpConfig(accessLog, upstreams, servers))
    {
      HttpErrorStays(stmts, i + 1, addrOf);
      match stmts[i] {
        case Directive(name, args) =>
          if name != "access_log" {
            return Err(UnknownDirective(InHttp, name));
          }
          var setting := AccessLogArgs(ArgValues(args));
          if setting.Err? {
            return Err(setting.error);
          }
          accessLog := Some(setting.value);
        case Block(name, head, body) =>
          if name == "server" {
            var server := ServerBlock.ParseServerBlock(body, addrOf);
            if server.Err? {
              return Err(server.error);
            }
            servers := servers + [server.value];
          } else if name == "upstream" {
            if head.None? {
              return Err(UpstreamNeedsName);
            }
            var upstreamName := ArgToString(head.value);
            if HasUpstream(upstreams, upstreamName) {
              return Err(DuplicateUpstream(upstreamName));
            }
            var upstream := UpstreamBlock.ParseUpstreamBlock(upstreamName, body, addrOf);
            if upstream.Err? {
              return Err(upstream.error);
            }
            upstreams := upstreams + [upstream.value];
          } else {
            return Err(UnknownBlock(InHttp, name));
          }
      }
    }
    r := Ok(HttpConfig(accessLog, upstreams, servers));
  }

  // ---- The file ----

  const START := Config(1, 1024, [], HttpConfig(None, [], []))

  /** One statement of the file; a repeated block replaces what the earlier one said. */
  function FileStep(c: Config, st: Stmt, addrOf: AddrParser): Result<Config, ConfigError> {
    match st
    case Directive(name, args) =>
      if name != "worker_processes" then Err(UnknownDirective(TopLevel, name)) else
      (match OneU32(ArgValues(args), name)
       case Err(e) => Err(e)
       case Ok(n) => Ok(c.(workerProcesses := n)))
    case Block(name, _, body) =>
      if name == "events" then
        match EventsAfter(body, |body|) case Err(e) => Err(e) case Ok(n) => Ok(c.(workerConnections := n))
      else if name == "http" then
        match HttpAfter(body, |body|, addrOf) case Err(e) => Err(e) case Ok(h) => Ok(c.(http := h))
      else if name == "stream" then
        match StreamOf(body, addrOf) case Err(e) => Err(e) case Ok(s) => Ok(c.(stream := s))
      else Err(UnknownBlock(TopLevel, name))
  }

  function FileAfter(stmts: seq<Stmt>, k: nat, addrOf: AddrParser): Result<Config, ConfigError>
    requires k <= |stmts|
  {
    if k == 0 then Ok(START) else
    match FileAfter(stmts, k - 1, addrOf)
    case Err(e) => Err(e)
    case Ok(c) => FileStep(c, stmts[k - 1], addrOf)
  }

  /** What a configuration text means. */
  function ConfigOf(src: string, addrOf: AddrParser): Result<Config, ConfigError> {
    match FileRule(src)
    case None => Err(SyntaxError)
    case Some(stmts) =>
      match FileAfter(stmts, |stmts|, addrOf)
      case Err(e) => Err(e)
      case Ok(c) =>
        if c.http.servers == [] && c.stream == [] then Err(NeedsServer) else
        match Schemes.FirstClash(Schemes.Refs(c.http))
        case Some(e) => Err(e)
        case None => Ok(c)
  }

  lemma {:induction false} FileErrorStays(stmts: seq<Stmt>, k: nat, addrOf: AddrParser)
    requires k <= |stmts|
    ensures FileAfter(stmts, k, addrOf).Err? ==> FileAfter(stmts, |stmts|, addrOf) == FileAfter(stmts, k, addrOf)
    decreases |stmts| - k
  {
    hide FileStep;
    if k < |stmts| {
      FileErrorStays(stmts, k + 1, addrOf);
    }
  }

  method ParseStr(src: string, addrOf: AddrParser) returns (r: Result<Config, ConfigError>)
    ensures r == ConfigOf(src, addrOf)
    ensures r.Ok? ==> ConfigReady(r.value)
  {
    AcceptedConfigIsReady(src, addrOf);
    var file := FileRule(src);
    if file.None? {
      return Err(SyntaxError);
    }
    var stmts := file.value;
    var workerProcesses: nat, workerConnections: nat := 1, 1024;
    var stream: seq<StreamServer> := [];
    var http := HttpConfig(None, [], []);
    for i := 0 to |stmts|
      invariant FileAfter(stmts, i, addrOf) == Ok(Config(workerProcesses, workerConnections, stream, http))
    {
      FileErrorStays(stmts, i + 1, addrOf);
      match stmts[i] {
        case Directive(name, args) =>
          if name != "worker_processes" {
            return Err(UnknownDirective(TopLevel, name));
          }
          var n := OneU32(ArgValues(args), "worker_processes");
          if n.Err? {
            return Err(n.error);
          }
          workerProcesses := n.value;
        case Block(name, _, body) =>
          if name == "events" {
            var events := ParseEventsBlock(body);
            if events.Err? {
              return Err(events.error);
            }
            workerConnections := events.value;
          } else if name == "http" {
            var block := ParseHttpBlock(body, addrOf);
            if block.Err? {
              return Err(block.error);
            }
            http := block.value;
          } else if name == "stream" {
            var block := ParseStreamBlock(body, addrOf);
            if block.Err? {
              return Err(block.error);
            }
            stream := block.value;
          } else {
            return Err(UnknownBlock(TopLevel, name));
          }
      }
    }
    if http.servers == [] && stream == [] {
      return Err(NeedsServer);
    }
    if http.servers != [] {
      var clash := Schemes.ValidateUpstreamProxySchemes(http);
      if clash.Some? {
        return Err(clash.value);
      }
    }
    r := Ok(Config(workerProcesses, workerConnections, stream, http));
  }

  // ---- What the server takes for granted ----

  predicate UpstreamReady(u: Upstream) {
    u.servers != [] && (u.healthCheck.Some? ==> u.healthCheck.value.intervalSecs > 0 && "/" <= u.healthCheck.value.uri)
  }

  ghost predicate DistinctNames(upstreams: seq<Upstream>) {
    forall i, j | 0 <= i < j < |upstreams| :: upstreams[i].name != upstreams[j].name
  }

  ghost predicate HttpReady(h: HttpConfig) {
    && DistinctNames(h.upstreams)
    && (forall i | 0 <= i < |h.upstreams| :: UpstreamReady(h.upstreams[i]))
    && (forall i | 0 <= i < |h.servers| :: ServerBlock.ServerReady(h.servers[i]))
  }

  /**
   * There is something to listen on; upstream names are distinct and pools nonempty; probes
   * have an interval and an absolute path; `ssl` listeners have TLS files; forward proxies have
   * no locations; static locations have an index; and references to an upstream agree.
   */
  ghost predicate ConfigReady(c: Config) {
    (c.http.servers != [] || c.stream != []) && HttpReady(c.http) && Schemes.LocationsAgree(c.http)
  }

  lemma {:induction false} HttpAfterIsReady(stmts: seq<Stmt>, k: nat, addrOf: AddrParser)
    requires k <= |stmts| && HttpAfter(stmts, k, addrOf).Ok?
    ensures HttpReady(HttpAfter(stmts, k, addrOf).value)
    decreases k
  {
    if k > 0 {
      HttpAfterIsReady(stmts, k - 1, addrOf);
      var st := stmts[k - 1];
      if st.Block? {
        ServerBlock.AcceptedServerIsReady(st.body, addrOf);
        if st.head.Some? {
          UpstreamBlock.UpstreamMeans(ArgToString(st.head.value), st.body, addrOf);
        }
      }
    }
  }

  lemma {:induction false} FileAfterIsReady(stmts: seq<Stmt>, k: nat, addrOf: AddrParser)
    requires k <= |stmts| && FileAfter(stmts, k, addrOf).Ok?
    ensures HttpReady(FileAfter(stmts, k, addrOf).value.http)
    decreases k
  {
    if k > 0 {
      FileAfterIsReady(stmts, k - 1, addrOf);
      var st := stmts[k - 1];
      if st.Block? && HttpAfter(st.body, |st.body|, addrOf).Ok? {
        HttpAfterIsReady(st.body, |st.body|, addrOf);
      }
    }
  }

  /** Every accepted configuration is one the server can start with. */
  lemma AcceptedConfigIsReady(src: string, addrOf: AddrParser)
    ensures ConfigOf(src, addrOf).Ok? ==> ConfigReady(ConfigOf(src, addrOf).value)
  {
    if ConfigOf(src, addrOf).Ok? {
      var stmts := FileRule(src).value;
      FileAfterIsReady(stmts, |stmts|, addrOf);
      Schemes.NoClashIffAgree(Schemes.Refs(ConfigOf(src, addrOf).value.http));
      Schemes.RefsAgreeIffLocationsAgree(ConfigOf(src, addrOf).value.http);
    }
  }
}
