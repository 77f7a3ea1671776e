/** `server { … }` of `http`: listeners, TLS files and locations. */
module ServerBlock {
  import opened Wrappers
  import opened Grammar
  import opened Values
  import opened Config
  import LocationBlock
  import LocationMeaning

  // ---- listen ----

  /** The arguments of `listen` other than `ssl`. */
  function NotSsl(args: seq<string>): seq<string> {
    if args == [] then []
    else NotSsl(args[..|args| - 1]) + if args[|args| - 1] == "ssl" then [] else [args[|args| - 1]]
  }

  /** What `listen` means: one address, and `ssl` anywhere. */
  function ListenOf(args: seq<string>, addrOf: AddrParser): Result<Listen, ConfigError> {
    var rest := NotSsl(args);
    if |rest| > 1 then Err(UnexpectedListenArgument(rest[1]))
    else if rest == [] then Err(ListenNeedsAddress)
    else match ListenAddr(rest[0], addrOf)
      case Err(e) => Err(e)
      case Ok(addr) => Ok(Listen(addr, "ssl" in args))
  }

  lemma {:induction false} NotSslGrows(args: seq<string>, k: nat)
    requires k <= |args|
    ensures NotSsl(args[..k]) <= NotSsl(args)
    decreases |args| - k
  {
    if k == |args| {
      assert args[..k] == args;
    } else {
      assert args[..k + 1][..k] == args[..k];
      NotSslGrows(args, k + 1);
    }
  }

  /** One argument is an address; all others are `ssl`, if there are any. */
  ghost predicate SaysListen(args: seq<string>, l: Listen, addrOf: AddrParser) {
    && (l.ssl <==> "ssl" in args)
    && exists i | 0 <= i < |args| :: OnlyAddress(args, i) && SaysAddress(args[i], l.addr, addrOf)
  }

  predicate OnlyAddress(args: seq<string>, i: nat)
    requires i < |args|
  {
    args[i] != "ssl" && forall j | 0 <= j < |args| && j != i :: args[j] == "ssl"
  }

  lemma {:induction false} NotSslMeans(args: seq<string>) returns (i: nat)
    ensures |NotSsl(args)| == 0 ==> forall j | 0 <= j < |args| :: args[j] == "ssl"
    ensures |NotSsl(args)| == 1 ==> i < |args| && OnlyAddress(args, i) && NotSsl(args)[0] == args[i]
    ensures |NotSsl(args)| > 1 ==> forall j | 0 <= j < |args| :: !OnlyAddress(args, j)
    decreases |args|
  {
    i := 0;
    if args != [] {
      var n := |args| - 1;
      i := NotSslMeans(args[..n]);
      if |NotSsl(args[..n])| == 0 {
        i := n;
      } else if args[n] != "ssl" {
        var m := SomeNotSsl(args[..n]);
        assert args[m] != "ssl";
      } else if |NotSsl(args[..n])| > 1 {
        forall j | 0 <= j < |args| ensures !OnlyAddress(args, j) {
          if j < n {
            assert !OnlyAddress(args[..n], j);
          }
        }
      }
    }
  }

  lemma {:induction false} SomeNotSsl(args: seq<string>) returns (m: nat)
    requires NotSsl(args) != []
    ensures m < |args| && args[m] != "ssl"
  {
    m := |args| - 1;
    if args[m] == "ssl" {
      m := SomeNotSsl(args[..m]);
    }
  }

  lemma ListenMeans(args: seq<string>, addrOf: AddrParser, l: Listen)
    ensures ListenOf(args, addrOf) == Ok(l) <==> SaysListen(args, l, addrOf)
  {
    hide NotSsl;
    var i := NotSslMeans(args);
    if |NotSsl(args)| == 1 {
      ListenAddrMeans(args[i], addrOf, l.addr);
    }
  }

  method ParseListenArgs(args: seq<string>, addrOf: AddrParser) returns (r: Result<Listen, ConfigError>)
    ensures r == ListenOf(args, addrOf)
  {
    var ssl := false;
    var addrPart: Option<string> := None;
    for i := 0 to |args|
      invariant ssl == ("ssl" in args[..i])
      invariant NotSsl(args[..i]) == match addrPart case None => [] case Some(a) => [a]
    {
      assert args[..i + 1][..i] == args[..i];
      if args[i] == "ssl" {
        ssl := true;
      } else if addrPart.None? {
        addrPart := Some(args[i]);
      } else {
        NotSslGrows(args, i + 1);
        return Err(UnexpectedListenArgument(args[i]));
      }
    }
    assert args[..|args|] == args;
    if addrPart.None? {
      return Err(ListenNeedsAddress);
    }
    var addr := ListenAddr(addrPart.value, addrOf);
    if addr.Err? {
      return Err(addr.error);
    }
    r := Ok(Listen(addr.value, ssl));
  }

  // ---- The block ----

  datatype State = State(
    listeners: seq<Listen>,
    cert: Option<string>,
    key: Option<string>,
    accessLog: Option<AccessLogSetting>,
    forwardProxy: bool,
    locations: seq<Location>)

  const START := State([], None, None, None, false, [])

  function OnDirective(s: State, name: string, args: seq<string>, addrOf: AddrParser): Result<State, ConfigError> {
    if name == "listen" then
      if args == [] then Err(ListenNeedsAddress) else
      match ListenOf(args, addrOf) case Err(e) => Err(e) case Ok(l) => Ok(s.(listeners := s.listeners + [l]))
    else if name == "ssl_certificate" then
      match OneString(args, name) case Err(e) => Err(e) case Ok(p) => Ok(s.(cert := Some(p)))
    else if name == "ssl_certificate_key" then
      match OneString(args, name) case Err(e) => Err(e) case Ok(p) => Ok(s.(key := Some(p)))
    else if name == "access_log" then
      match AccessLogArgs(args) case Err(e) => Err(e) case Ok(a) => Ok(s.(accessLog := Some(a)))
    else if name == "forward_proxy" then
      match BoolArg(args, name) case Err(e) => Err(e) case Ok(b) => Ok(s.(forwardProxy := b))
    else Err(UnknownDirective(InServer, name))
  }

  function OnBlock(s: State, name: string, head: Option<Arg>, body: seq<Stmt>, addrOf: AddrParser): Result<State, ConfigError> {
    if name != "location" then Err(UnknownBlock(InServer, name))
    else if head.None? then Err(LocationNeedsPath)
    else match LocationBlock.LocationOf(ArgToString(head.value), body, addrOf)
      case Err(e) => Err(e)
      case Ok(l) => Ok(s.(locations := s.locations + [l]))
  }

  function Step(s: State, st: Stmt, addrOf: AddrParser): Result<State, ConfigError> {
    match st
    case Directive(name, args) => OnDirective(s, name, ArgValues(args), addrOf)
    case Block(name, head, body) => OnBlock(s, name, head, body, addrOf)
  }

  function After(stmts: seq<Stmt>, k: nat, addrOf: AddrParser): Result<State, ConfigError>
    requires k <= |stmts|
  {
    if k == 0 then Ok(START) else
    match After(stmts, k - 1, addrOf)
    case Err(e) => Err(e)
    case Ok(s) => Step(s, stmts[k - 1], addrOf)
  }

  predicate AnySsl(listeners: seq<Listen>) {
    exists i | 0 <= i < |listeners| :: listeners[i].ssl
  }

  function Finish(s: State): Result<Server, ConfigError> {
    if s.listeners == [] then Err(ServerNeedsListen)
    else if s.cert.Some? != s.key.Some? then Err(TlsFilesNotBoth)
    else
      var tls := if s.cert.Some? then Some(TlsFiles(s.cert.value, s.key.value)) else None;
      if AnySsl(s.listeners) && tls.None? then Err(SslNeedsTlsFiles)
      else if s.forwardProxy && s.locations != [] then Err(ForwardProxyWithLocations)
      else Ok(Server(s.listeners, tls, s.accessLog, s.forwardProxy, s.locations))
  }

  /** What a server block means. */
  function ServerOf(stmts: seq<Stmt>, addrOf: AddrParser): Result<Server, ConfigError> {
    match After(stmts, |stmts|, addrOf)
    case Err(e) => Err(e)
    case Ok(s) => Finish(s)
  }

  lemma {:induction false} ErrorStays(stmts: seq<Stmt>, k: nat, addrOf: AddrParser)
    requires k <= |stmts|
    ensures After(stmts, k, addrOf).Err? ==> After(stmts, |stmts|, addrOf) == After(stmts, k, addrOf)
    decreases |stmts| - k
  {
    hide Step;
    if k < |stmts| {
      ErrorStays(stmts, k + 1, addrOf);
    }
  }

  method ParseServerBlock(stmts: seq<Stmt>, addrOf: AddrParser) returns (r: Result<Server, ConfigError>)
    ensures r == ServerOf(stmts, addrOf)
  {
    hide ListenOf, ArgValues, Finish;
    var s := START;
    for i := 0 to |stmts|
      invariant After(stmts, i, addrOf) == Ok(s)
    {
      ErrorStays(stmts, i + 1, addrOf);
      match stmts[i] {
        case Directive(name, rawArgs) =>
          var args := ArgValues(rawArgs);
          if name == "listen" {
            if args == [] {
              return Err(ListenNeedsAddress);
            }
            var listen := ParseListenArgs(args, addrOf);
            if listen.Err? {
              return Err(listen.error);
            }
            s := s.(listeners := s.listeners + [listen.value]);
          } else {
            var next := OnDirective(s, name, args, addrOf);
            if next.Err? {
              return Err(next.error);
            }
            s := next.value;
          }
        case Block(name, head, body) =>
          if name != "location" {
            return Err(UnknownBlock(InServer, name));
          }
          if head.None? {
            return Err(LocationNeedsPath);
          }
          var location := LocationBlock.ParseLocationBlock(ArgToString(head.value), body, addrOf);
          if location.Err? {
            return Err(location.error);
          }
          s := s.(locations := s.locations + [location.value]);
      }
    }
    r := Finish(s);
  }

  // ---- What the server relies on ----

  /** Every `ssl` listener has TLS files, and each location can be served. */
  predicate ServerReady(s: Server) {
    && s.listeners != []
    && (forall i | 0 <= i < |s.listeners| && s.listeners[i].ssl :: s.tls.Some?)
    && (s.forwardProxy ==> s.locations == [])
    && forall i | 0 <= i < |s.locations| :: LocationReady(s.locations[i])
  }

  predicate LocationReady(l: Location) {
    l.action.Static? ==> l.action.index != []
  }

  lemma {:induction false} LocationsReady(stmts: seq<Stmt>, k: nat, addrOf: AddrParser)
    requires k <= |stmts| && After(stmts, k, addrOf).Ok?
    ensures forall i | 0 <= i < |After(stmts, k, addrOf).value.locations| ::
              LocationReady(After(stmts, k, addrOf).value.locations[i])
    decreases k
  {
    hide ListenOf, LocationBlock.LocationOf, ArgValues;
    if k > 0 {
      LocationsReady(stmts, k - 1, addrOf);
      var st := stmts[k - 1];
      if st.Block? && st.head.Some? {
        LocationMeaning.IndexIsNotEmpty(ArgToString(st.head.value), st.body, addrOf);
      }
    }
  }

  lemma AcceptedServerIsReady(stmts: seq<Stmt>, addrOf: AddrParser)
    ensures ServerOf(stmts, addrOf).Ok? ==> ServerReady(ServerOf(stmts, addrOf).value)
  {
    if ServerOf(stmts, addrOf).Ok? {
      LocationsReady(stmts, |stmts|, addrOf);
    }
  }
}
