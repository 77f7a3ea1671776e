/** The configuration as the server sees it, the errors of its builder, and the readers of single arguments. */
module Config {
  import opened Wrappers
  import opened Decimal
  import opened Addresses
  import Routing

  datatype AccessLogSetting = Off | Path(path: string)

  datatype HealthCheck = HealthCheck(intervalSecs: nat, uri: string)

  const DEFAULT_HEALTH_CHECK := HealthCheck(5, "/")

  datatype Upstream = Upstream(name: string, servers: seq<SocketAddr>, healthCheck: Option<HealthCheck>)

  datatype ProxyTarget = ToUpstream(name: string) | Direct(addr: SocketAddr)

  datatype ProxyPass = ProxyPass(scheme: ProxyScheme, sslVerify: bool, target: ProxyTarget)

  datatype Action =
    | Return(status: nat, body: string)
    | Proxy(pass: ProxyPass)
    | Static(root: string, index: seq<string>)

  type Location = Routing.Location<Action>

  datatype Listen = Listen(addr: SocketAddr, ssl: bool)

  datatype TlsFiles = TlsFiles(cert: string, key: string)

  datatype Server = Server(
    listeners: seq<Listen>,
    tls: Option<TlsFiles>,
    accessLog: Option<AccessLogSetting>,
    forwardProxy: bool,
    locations: seq<Location>)

  datatype HttpConfig = HttpConfig(accessLog: Option<AccessLogSetting>, upstreams: seq<Upstream>, servers: seq<Server>)

  datatype StreamServer = StreamServer(listen: SocketAddr, proxyPass: SocketAddr)

  datatype Config = Config(workerProcesses: nat, workerConnections: nat, stream: seq<StreamServer>, http: HttpConfig)

  /** Where a directive or block may not stand. */
  datatype Place = TopLevel | InEvents | InHttp | InUpstream | InServer | InLocation | InStream | InStreamServer

  datatype ConfigError =
    | SyntaxError
    | UnknownDirective(place: Place, name: string)
    | UnknownBlock(place: Place, name: string)
    | NeedsValue(directive: string)
    | NotANumber(directive: string)
    | NotABool(directive: string)
    | NeedsServer
    | StreamOnlyServers
    | StreamNeedsServer
    | StreamServerNeeds(directive: string)
    | StreamListenOneAddress
    | ListenNeedsAddress
    | UnexpectedListenArgument(arg: string)
    | BadAddress(text: string)
    | AccessLogNeedsPath
    | AccessLogExtraArgument
    | UpstreamNeedsName
    | DuplicateUpstream(name: string)
    | UpstreamNeedsServer(name: string)
    | ServerNeedsAddress
    | HealthOptionNeedsValue(option: string)
    | HealthIntervalNotNumber
    | HealthIntervalZero
    | HealthUriNoSlash
    | UnknownHealthOption(option: string)
    | ServerNeedsListen
    | TlsFilesNotBoth
    | SslNeedsTlsFiles
    | ForwardProxyWithLocations
    | LocationNeedsPath
    | DuplicateAction(path: string)
    | ReturnNeedsStatusAndBody
    | ReturnStatusNotNumber
    | SslVerifyNotOnOff(value: string)
    | IndexRequiresRoot(path: string)
    | IndexNeedsName
    | LocationNeedsAction(path: string)
    | ConflictingDirectives(path: string)
    | ProxyPassScheme
    | ProxyPassNeedsTarget
    | ProxyPassWithPath
    | MixedSchemes(upstream: string)
    | MixedSslVerify(upstream: string)

  /** `str::parse::<SocketAddr>`, which is not part of this model. */
  type AddrParser = string -> Option<SocketAddr>

  function OneString(args: seq<string>, directive: string): Result<string, ConfigError> {
    if args == [] then Err(NeedsValue(directive)) else Ok(args[0])
  }

  function OneU32(args: seq<string>, directive: string): Result<nat, ConfigError> {
    if args == [] then Err(NeedsValue(directive))
    else match ParseUint(args[0], U32_MAX)
      case None => Err(NotANumber(directive))
      case Some(n) => Ok(n)
  }

  function BoolArg(args: seq<string>, directive: string): Result<bool, ConfigError> {
    match OneString(args, directive)
    case Err(e) => Err(e)
    case Ok(v) => if v == "true" then Ok(true) else if v == "false" then Ok(false) else Err(NotABool(directive))
  }

  function AccessLogArgs(args: seq<string>): Result<AccessLogSetting, ConfigError> {
    if args == [] then Err(AccessLogNeedsPath)
    else if |args| > 1 then Err(AccessLogExtraArgument)
    else if args[0] == "off" then Ok(Off)
    else Ok(Path(args[0]))
  }

  /** `:8080` is short for `127.0.0.1:8080`. */
  function ListenAddr(text: string, addrOf: AddrParser): Result<SocketAddr, ConfigError> {
    match addrOf(if text != [] && text[0] == ':' then "127.0.0.1" + text else text)
    case None => Err(BadAddress(text))
    case Some(addr) => Ok(addr)
  }

  /** The target after `http://` or `https://`: with a colon an address, else the name of an upstream. */
  function ProxyPassUrl(url: string, addrOf: AddrParser): Result<ProxyPass, ConfigError> {
    if "https://" <= url then ProxyPassTarget(Https, url[8..], addrOf)
    else if "http://" <= url then ProxyPassTarget(ProxyScheme.Http, url[7..], addrOf)
    else Err(ProxyPassScheme)
  }

  function ProxyPassTarget(scheme: ProxyScheme, rest: string, addrOf: AddrParser): Result<ProxyPass, ConfigError> {
    if rest == [] then Err(ProxyPassNeedsTarget)
    else if '/' in rest then Err(ProxyPassWithPath)
    else if ':' in rest then
      match ListenAddr(rest, addrOf)
      case Err(e) => Err(e)
      case Ok(addr) => Ok(ProxyPass(scheme, true, Direct(addr)))
    else Ok(ProxyPass(scheme, true, ToUpstream(rest)))
  }

  // ---- What arguments say, apart from their readers ----

  /** `text` is the address `a`; one that starts with a colon is on the loopback host. */
  predicate SaysAddress(text: string, a: SocketAddr, addrOf: AddrParser) {
    if ":" <= text then addrOf("127.0.0.1" + text) == Some(a) else addrOf(text) == Some(a)
  }

  /** `url` is a scheme and a target without slash, which is an address if it has a colon. */
  ghost predicate SaysUrl(url: string, scheme: ProxyScheme, target: ProxyTarget, addrOf: AddrParser) {
    exists rest: string ::
      && url == (if scheme.Https? then "https://" else "http://") + rest
      && rest != [] && '/' !in rest
      && if ':' in rest then target.Direct? && SaysAddress(rest, target.addr, addrOf) else target == ToUpstream(rest)
  }

  lemma ListenAddrMeans(text: string, addrOf: AddrParser, a: SocketAddr)
    ensures ListenAddr(text, addrOf) == Ok(a) <==> SaysAddress(text, a, addrOf)
  {
  }

  lemma OneU32Means(args: seq<string>, directive: string, n: nat)
    ensures OneU32(args, directive) == Ok(n) <==> args != [] && Denotes(args[0], n, 4_294_967_295)
  {
    hide ParseUint, Denotes;
    if args != [] {
      ParseUintMeans(args[0], U32_MAX, n);
    }
  }

  lemma BoolArgMeans(args: seq<string>, directive: string, b: bool)
    ensures BoolArg(args, directive) == Ok(b) <==> args != [] && args[0] == if b then "true" else "false"
  {
    assert "true"[0] == 't' && "false"[0] == 'f';
  }

  lemma AccessLogArgsMean(args: seq<string>, a: AccessLogSetting)
    ensures AccessLogArgs(args) == Ok(a) <==> |args| == 1 && a == if args[0] == "off" then Off else Path(args[0])
  {
  }

  /** A URL is accepted exactly when it says a scheme and a target; certificates are then to be checked. */
  lemma ProxyPassUrlMeans(url: string, addrOf: AddrParser, p: ProxyPass)
    ensures ProxyPassUrl(url, addrOf) == Ok(p) <==> p.sslVerify && SaysUrl(url, p.scheme, p.target, addrOf)
  {
    assert "https://"[4] == 's' && "http://"[4] == ':';
    forall rest: string ensures ("https://" + rest)[8..] == rest && ("http://" + rest)[7..] == rest {
    }
    if "https://" <= url {
      assert url == "https://" + url[8..] && url[4] == 's';
      forall rest: string ensures url != "http://" + rest {
        assert ("http://" + rest)[4] == ':';
      }
    } else if "http://" <= url {
      assert url == "http://" + url[7..];
    }
  }
}
