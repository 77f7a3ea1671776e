/**
 * When a configuration file is accepted, and what it then says, stated block by block without
 * an order of evaluation: which statements are good, which of several settings counts, and
 * what the blocks must have together.
 */
module FileMeaning {
  import opened Wrappers
  import opened Decimal
  import opened Addresses
  import opened Grammar
  import opened Values
  import opened Config
  import LocationBlock
  import UpstreamBlock
  import ServerBlock
  import Schemes
  import opened ConfigFile

  predicate IsSection(st: Stmt, name: string) {
    st.Block? && st.name == name
  }

  /** The arguments of the last directive `name` among the first `k` statements. */
  function LastArgs(stmts: seq<Stmt>, name: string, k: nat): Option<seq<string>>
    requires k <= |stmts|
  {
    if k == 0 then None
    else if IsSetting(stmts[k - 1], name) then Some(ArgValues(stmts[k - 1].args))
    else LastArgs(stmts, name, k - 1)
  }

  /** The body of the last block `name` among the first `k` statements. */
  function LastBody(stmts: seq<Stmt>, name: string, k: nat): Option<seq<Stmt>>
    requires k <= |stmts|
  {
    if k == 0 then None
    else if IsSection(stmts[k - 1], name) then Some(stmts[k - 1].body)
    else LastBody(stmts, name, k - 1)
  }

  function FirstOf(args: Option<seq<string>>): Option<string> {
    if args.Some? && args.value != [] then Some(args.value[0]) else None
  }

  function NumberOf(args: Option<seq<string>>, default: nat): nat {
    if args.None? || args.value == [] then default else
    match ParseUint(args.value[0], U32_MAX) case Some(n) => n case None => default
  }

  function AddressOf(args: Option<seq<string>>, addrOf: AddrParser): Option<SocketAddr> {
    if args.Some? && args.value != [] && ListenAddr(args.value[0], addrOf).Ok?
    then Some(ListenAddr(args.value[0], addrOf).value) else None
  }

  function AccessLogOf(args: Option<seq<string>>): Option<AccessLogSetting> {
    if args.Some? && AccessLogArgs(args.value).Ok? then Some(AccessLogArgs(args.value).value) else None
  }

  // ---- events ----

  predicate GoodInEvents(st: Stmt) {
    match st
    case Directive(name, args) => name == "worker_connections" && OneU32(ArgValues(args), name).Ok?
    case Block(_, _, _) => true
  }

  /** The last `worker_connections` among the first `k` statements, or its default. */
  function Connections(stmts: seq<Stmt>, k: nat): nat
    requires k <= |stmts|
  {
    NumberOf(LastArgs(stmts, "worker_connections", k), 1024)
  }

  /** An events block is accepted exactly when its directives are good; its blocks are passed over. */
  lemma {:induction false} EventsMean(stmts: seq<Stmt>, k: nat)
    requires k <= |stmts|
    ensures EventsAfter(stmts, k).Ok? <==> forall j | 0 <= j < k :: GoodInEvents(stmts[j])
    ensures EventsAfter(stmts, k).Ok? ==> EventsAfter(stmts, k) == Ok(Connections(stmts, k))
    decreases k
  {
    hide ArgValues;
    if k > 0 {
      EventsMean(stmts, k - 1);
    }
  }

  // ---- stream ----

  predicate GoodInStreamServer(st: Stmt, addrOf: AddrParser) {
    match st
    case Directive(name, rawArgs) =>
      var args := ArgValues(rawArgs);
      && args != [] && ListenAddr(args[0], addrOf).Ok?
      && (name == "proxy_pass" || (name == "listen" && |args| == 1))
    case Block(_, _, _) => true
  }

  /** Good directives, and at least one `listen` and one `proxy_pass` among them. */
  predicate GoodStreamServer(stmts: seq<Stmt>, addrOf: AddrParser) {
    && (forall j | 0 <= j < |stmts| :: GoodInStreamServer(stmts[j], addrOf))
    && (exists j | 0 <= j < |stmts| :: IsSetting(stmts[j], "listen"))
    && (exists j | 0 <= j < |stmts| :: IsSetting(stmts[j], "proxy_pass"))
  }

  /** What the first `k` statements of a stream server say: the last address of each kind. */
  function StreamServerFields(stmts: seq<Stmt>, k: nat, addrOf: AddrParser): StreamState
    requires k <= |stmts|
  {
    StreamState(AddressOf(LastArgs(stmts, "listen", k), addrOf), AddressOf(LastArgs(stmts, "proxy_pass", k), addrOf))
  }

  lemma {:induction false} StreamServerAfterMeans(stmts: seq<Stmt>, k: nat, addrOf: AddrParser)
    requires k <= |stmts|
    ensures StreamServerAfter(stmts, k, addrOf).Ok? <==> forall j | 0 <= j < k :: GoodInStreamServer(stmts[j], addrOf)
    ensures StreamServerAfter(stmts, k, addrOf).Ok? ==>
              StreamServerAfter(stmts, k, addrOf) == Ok(StreamServerFields(stmts, k, addrOf))
    decreases k
  {
    hide ArgValues, ListenAddr;
    if k > 0 {
      StreamServerAfterMeans(stmts, k - 1, addrOf);
    }
  }

  lemma {:induction false} LastArgsExist(stmts: seq<Stmt>, name: string, k: nat)
    requires k <= |stmts|
    ensures LastArgs(stmts, name, k).Some? <==> exists j | 0 <= j < k :: IsSetting(stmts[j], name)
    ensures LastArgs(stmts, name, k).Some? ==>
              exists j | 0 <= j < k :: IsSetting(stmts[j], name) && LastArgs(stmts, name, k) == Some(ArgValues(stmts[j].args))
    decreases k
  {
    if k > 0 {
      LastArgsExist(stmts, name, k - 1);
    }
  }

  /**
   * A stream server is accepted exactly when its directives are good and both addresses are
   * given; of each kind the last one counts, and its blocks are passed over.
   */
  lemma StreamServerMeans(stmts: seq<Stmt>, addrOf: AddrParser)
    ensures StreamServerOf(stmts, addrOf).Ok? <==> GoodStreamServer(stmts, addrOf)
    ensures StreamServerOf(stmts, addrOf).Ok? ==>
              var s, f := StreamServerOf(stmts, addrOf).value, StreamServerFields(stmts, |stmts|, addrOf);
              f == StreamState(Some(s.listen), Some(s.proxyPass))
  {
    hide ArgValues, ListenAddr, StreamServerAfter;
    StreamServerAfterMeans(stmts, |stmts|, addrOf);
    LastArgsExist(stmts, "listen", |stmts|);
    LastArgsExist(stmts, "proxy_pass", |stmts|);
  }

  predicate GoodInStream(st: Stmt, addrOf: AddrParser) {
    IsSection(st, "server") && GoodStreamServer(st.body, addrOf)
  }

  /** The servers of the first `k` statements, in order. */
  function StreamServers(stmts: seq<Stmt>, k: nat, addrOf: AddrParser): seq<StreamServer>
    requires k <= |stmts|
  {
    if k == 0 then []
    else
      StreamServers(stmts, k - 1, addrOf)
      + if !stmts[k - 1].Block? then [] else
        var f := StreamServerFields(stmts[k - 1].body, |stmts[k - 1].body|, addrOf);
        if f.listen.Some? && f.proxyPass.Some? then [StreamServer(f.listen.value, f.proxyPass.value)] else []
  }

  lemma {:induction false} StreamAfterMeans(stmts: seq<Stmt>, k: nat, addrOf: AddrParser)
    requires k <= |stmts|
    ensures StreamAfter(stmts, k, addrOf).Ok? <==> forall j | 0 <= j < k :: GoodInStream(stmts[j], addrOf)
    ensures StreamAfter(stmts, k, addrOf).Ok? ==>
              StreamAfter(stmts, k, addrOf) == Ok(StreamServers(stmts, k, addrOf)) && |StreamServers(stmts, k, addrOf)| == k
    decreases k
  {
    hide GoodStreamServer, StreamServerFields, StreamServerOf;
    if k > 0 {
      StreamAfterMeans(stmts, k - 1, addrOf);
      if stmts[k - 1].Block? {
        StreamServerMeans(stmts[k - 1].body, addrOf);
      }
    }
  }

  /** A stream block is accepted exactly when it is one or more good servers, which it has in order. */
  lemma StreamMeans(stmts: seq<Stmt>, addrOf: AddrParser)
    ensures StreamOf(stmts, addrOf).Ok? <==> GoodStream(stmts, addrOf)
    ensures StreamOf(stmts, addrOf).Ok? ==>
              StreamOf(stmts, addrOf) == Ok(StreamServers(stmts, |stmts|, addrOf))
              && |StreamServers(stmts, |stmts|, addrOf)| == |stmts|
  {
    hide GoodInStream;
    StreamAfterMeans(stmts, |stmts|, addrOf);
  }

  // ---- server ----

  predicate GoodInServer(st: Stmt, addrOf: AddrParser) {
    match st
    case Directive(name, rawArgs) =>
      var args := ArgValues(rawArgs);
      || (name == "listen" && args != [] && ServerBlock.ListenOf(args, addrOf).Ok?)
      || ((name == "ssl_certificate" || name == "ssl_certificate_key") && args != [])
      || (name == "access_log" && AccessLogArgs(args).Ok?)
      || (name == "forward_proxy" && BoolArg(args, name).Ok?)
    case Block(name, head, body) =>
      name == "location" && head.Some? && LocationBlock.LocationOf(ArgToString(head.value), body, addrOf).Ok?
  }

  function Listeners(stmts: seq<Stmt>, k: nat, addrOf: AddrParser): seq<Listen>
    requires k <= |stmts|
  {
    if k == 0 then []
    else
      var st := stmts[k - 1];
      Listeners(stmts, k - 1, addrOf)
      + if IsSetting(st, "listen") && ServerBlock.ListenOf(ArgValues(st.args), addrOf).Ok?
        then [ServerBlock.ListenOf(ArgValues(st.args), addrOf).value] else []
  }

  function Locations(stmts: seq<Stmt>, k: nat, addrOf: AddrParser): seq<Location>
    requires k <= |stmts|
  {
    if k == 0 then []
    else
      var st := stmts[k - 1];
      Locations(stmts, k - 1, addrOf)
      + if st.Block? && st.head.Some? && LocationBlock.LocationOf(ArgToString(st.head.value), st.body, addrOf).Ok?
        then [LocationBlock.LocationOf(ArgToString(st.head.value), st.body, addrOf).value] else []
  }

  function ForwardProxy(stmts: seq<Stmt>, k: nat): bool
    requires k <= |stmts|
  {
    var args := LastArgs(stmts, "forward_proxy", k);
    args.Some? && BoolArg(args.value, "forward_proxy") == Ok(true)
  }

  /** The server that good statements describe. */
  function ServerFields(stmts: seq<Stmt>, k: nat, addrOf: AddrParser): ServerBlock.State
    requires k <= |stmts|
  {
    ServerBlock.State(
      Listeners(stmts, k, addrOf),
      FirstOf(LastArgs(stmts, "ssl_certificate", k)),
      FirstOf(LastArgs(stmts, "ssl_certificate_key", k)),
      AccessLogOf(LastArgs(stmts, "access_log", k)),
      ForwardProxy(stmts, k),
      Locations(stmts, k, addrOf))
  }

  lemma ServerStepMeans(stmts: seq<Stmt>, k: nat, addrOf: AddrParser)
    requires k < |stmts|
    ensures ServerBlock.Step(ServerFields(stmts, k, addrOf), stmts[k], addrOf).Ok? <==> GoodInServer(stmts[k], addrOf)
    ensures GoodInServer(stmts[k], addrOf) ==>
              ServerBlock.Step(ServerFields(stmts, k, addrOf), stmts[k], addrOf) == Ok(ServerFields(stmts, k + 1, addrOf))
  {
    hide ServerBlock.ListenOf, LocationBlock.LocationOf, AccessLogArgs, ArgValues;
    var s := ServerFields(stmts, k, addrOf);
    assert s.listeners + [] == s.listeners && s.locations + [] == s.locations;
  }

  /** Nothing said: every setting has its default. */
  lemma NoStatements(stmts: seq<Stmt>, addrOf: AddrParser)
    ensures ServerFields(stmts, 0, addrOf) == ServerBlock.START
    ensures HttpFields(stmts, 0, addrOf) == HttpConfig(None, [], []) && DistinctNames(Upstreams(stmts, 0, addrOf))
    ensures FileFields(stmts, 0, addrOf) == START
  {
  }

  lemma {:induction false} ServerAfterMeans(stmts: seq<Stmt>, k: nat, addrOf: AddrParser)
    requires k <= |stmts|
    ensures ServerBlock.After(stmts, k, addrOf).Ok? <==> forall j | 0 <= j < k :: GoodInServer(stmts[j], addrOf)
    ensures ServerBlock.After(stmts, k, addrOf).Ok? ==>
              ServerBlock.After(stmts, k, addrOf) == Ok(ServerFields(stmts, k, addrOf))
    decreases k
  {
    hide ServerBlock.Step, ServerFields, GoodInServer;
    if k == 0 {
      NoStatements(stmts, addrOf);
    } else {
      ServerAfterMeans(stmts, k - 1, addrOf);
      ServerStepMeans(stmts, k - 1, addrOf);
    }
  }

  /** A certificate comes with a key, `ssl` with both, and a forward proxy without locations. */
  predicate Complete(s: ServerBlock.State) {
    && s.listeners != [] && s.cert.Some? == s.key.Some?
    && ((exists i | 0 <= i < |s.listeners| :: s.listeners[i].ssl) ==> s.cert.Some?)
    && !(s.forwardProxy && s.locations != [])
  }

  /** A server block is accepted exactly when its statements are good and complete. */
  lemma ServerMeans(stmts: seq<Stmt>, addrOf: AddrParser)
    ensures ServerBlock.ServerOf(stmts, addrOf).Ok? <==>
            (forall j | 0 <= j < |stmts| :: GoodInServer(stmts[j], addrOf)) && Complete(ServerFields(stmts, |stmts|, addrOf))
    ensures ServerBlock.ServerOf(stmts, addrOf).Ok? ==>
              var s, f := ServerBlock.ServerOf(stmts, addrOf).value, ServerFields(stmts, |stmts|, addrOf);
              && s.listeners == f.listeners && s.accessLog == f.accessLog
              && s.forwardProxy == f.forwardProxy && s.locations == f.locations
              && (s.tls.Some? <==> f.cert.Some?)
              && (s.tls.Some? ==> f.cert == Some(s.tls.value.cert) && f.key == Some(s.tls.value.key))
  {
    hide ServerFields, GoodInServer;
    ServerAfterMeans(stmts, |stmts|, addrOf);
  }

  // ---- http ----

  predicate GoodInHttp(st: Stmt, addrOf: AddrParser) {
    match st
    case Directive(name, args) => name == "access_log" && AccessLogArgs(ArgValues(args)).Ok?
    case Block(name, head, body) =>
      || (name == "server" && ServerBlock.ServerOf(body, addrOf).Ok?)
      || (name == "upstream" && head.Some? && UpstreamBlock.UpstreamOf(ArgToString(head.value), body, addrOf).Ok?)
  }

  function Servers(stmts: seq<Stmt>, k: nat, addrOf: AddrParser): seq<Server>
    requires k <= |stmts|
  {
    if k == 0 then []
    else
      var st := stmts[k - 1];
      Servers(stmts, k - 1, addrOf)
      + if IsSection(st, "server") && ServerBlock.ServerOf(st.body, addrOf).Ok?
        then [ServerBlock.ServerOf(st.body, addrOf).value] else []
  }

  function Upstreams(stmts: seq<Stmt>, k: nat, addrOf: AddrParser): seq<Upstream>
    requires k <= |stmts|
  {
    if k == 0 then []
    else
      var st := stmts[k - 1];
      Upstreams(stmts, k - 1, addrOf)
      + if IsSection(st, "upstream") && st.head.Some? && UpstreamBlock.UpstreamOf(ArgToString(st.head.value), st.body, addrOf).Ok?
        then [UpstreamBlock.UpstreamOf(ArgToString(st.head.value), st.body, addrOf).value] else []
  }

  function HttpFields(stmts: seq<Stmt>, k: nat, addrOf: AddrParser): HttpConfig
    requires k <= |stmts|
  {
    HttpConfig(AccessLogOf(LastArgs(stmts, "access_log", k)), Upstreams(stmts, k, addrOf), Servers(stmts, k, addrOf))
  }

  lemma HttpStepMeans(stmts: seq<Stmt>, k: nat, addrOf: AddrParser)
    requires k < |stmts| && DistinctNames(Upstreams(stmts, k, addrOf))
    ensures HttpStep(HttpFields(stmts, k, addrOf), stmts[k], addrOf).Ok? <==>
            GoodInHttp(stmts[k], addrOf) && DistinctNames(Upstreams(stmts, k + 1, addrOf))
    ensures HttpStep(HttpFields(stmts, k, addrOf), stmts[k], addrOf).Ok? ==>
              HttpStep(HttpFields(stmts, k, addrOf), stmts[k], addrOf) == Ok(HttpFields(stmts, k + 1, addrOf))
  {
    hide ServerBlock.ServerOf, AccessLogArgs, ArgValues;
    var h, st := HttpFields(stmts, k, addrOf), stmts[k];
    assert h.servers + [] == h.servers && h.upstreams + [] == h.upstreams;
    if IsSection(st, "upstream") && GoodInHttp(st, addrOf) {
      UpstreamBlock.UpstreamMeans(ArgToString(st.head.value), st.body, addrOf);
      var all, n := Upstreams(stmts, k + 1, addrOf), |h.upstreams|;
      assert all[..n] == h.upstreams && all[n].name == ArgToString(st.head.value);
      if HasUpstream(h.upstreams, all[n].name) {
        var i :| 0 <= i < n && h.upstreams[i].name == all[n].name;
        assert all[i].name == all[n].name;
      }
    }
  }

  lemma UpstreamsGrow(stmts: seq<Stmt>, k: nat, addrOf: AddrParser)
    requires k < |stmts|
    ensures DistinctNames(Upstreams(stmts, k + 1, addrOf)) ==> DistinctNames(Upstreams(stmts, k, addrOf))
  {
    var before, after := Upstreams(stmts, k, addrOf), Upstreams(stmts, k + 1, addrOf);
    assert after[..|before|] == before;
    if DistinctNames(after) {
      forall i, j | 0 <= i < j < |before| ensures before[i].name != before[j].name {
        assert after[i].name != after[j].name;
      }
    }
  }

  /** An http block is accepted exactly when its statements are good and upstream names are distinct. */
  lemma {:induction false} HttpMeans(stmts: seq<Stmt>, k: nat, addrOf: AddrParser)
    requires k <= |stmts|
    ensures HttpAfter(stmts, k, addrOf).Ok? <==>
            (forall j | 0 <= j < k :: GoodInHttp(stmts[j], addrOf)) && DistinctNames(Upstreams(stmts, k, addrOf))
    ensures HttpAfter(stmts, k, addrOf).Ok? ==> HttpAfter(stmts, k, addrOf) == Ok(HttpFields(stmts, k, addrOf))
    decreases k
  {
    hide HttpStep, HttpFields, GoodInHttp, DistinctNames, Upstreams;
    if k == 0 {
      NoStatements(stmts, addrOf);
    } else {
      HttpMeans(stmts, k - 1, addrOf);
      UpstreamsGrow(stmts, k - 1, addrOf);
      if HttpAfter(stmts, k - 1, addrOf).Ok? {
        HttpStepMeans(stmts, k - 1, addrOf);
      }
    }
  }

  predicate GoodEvents(stmts: seq<Stmt>) {
    forall j | 0 <= j < |stmts| :: GoodInEvents(stmts[j])
  }

  predicate GoodStream(stmts: seq<Stmt>, addrOf: AddrParser) {
    stmts != [] && forall j | 0 <= j < |stmts| :: GoodInStream(stmts[j], addrOf)
  }

  ghost predicate GoodHttp(stmts: seq<Stmt>, addrOf: AddrParser) {
    (forall j | 0 <= j < |stmts| :: GoodInHttp(stmts[j], addrOf)) && DistinctNames(Upstreams(stmts, |stmts|, addrOf))
  }

  // ---- The file ----

  ghost predicate GoodInFile(st: Stmt, addrOf: AddrParser) {
    match st
    case Directive(name, args) => name == "worker_processes" && OneU32(ArgValues(args), name).Ok?
    case Block(name, _, body) =>
      || (name == "events" && GoodEvents(body))
      || (name == "http" && GoodHttp(body, addrOf))
      || (name == "stream" && GoodStream(body, addrOf))
  }

  /** Of a repeated directive or block the last one counts, as a whole. */
  function FileFields(stmts: seq<Stmt>, k: nat, addrOf: AddrParser): Config
    requires k <= |stmts|
  {
    Config(
      NumberOf(LastArgs(stmts, "worker_processes", k), 1),
      match LastBody(stmts, "events", k) case Some(body) => Connections(body, |body|) case None => 1024,
      match LastBody(stmts, "stream", k) case Some(body) => StreamServers(body, |body|, addrOf) case None => [],
      match LastBody(stmts, "http", k)
      case Some(body) => HttpFields(body, |body|, addrOf)
      case None => HttpConfig(None, [], []))
  }

  lemma FileStepMeans(stmts: seq<Stmt>, k: nat, addrOf: AddrParser)
    requires k < |stmts|
    ensures FileStep(FileFields(stmts, k, addrOf), stmts[k], addrOf).Ok? <==> GoodInFile(stmts[k], addrOf)
    ensures GoodInFile(stmts[k], addrOf) ==>
              FileStep(FileFields(stmts, k, addrOf), stmts[k], addrOf) == Ok(FileFields(stmts, k + 1, addrOf))
  {
    hide HttpAfter, StreamOf, EventsAfter, ArgValues, HttpFields, Connections, StreamServers, GoodInEvents, GoodStream, GoodInHttp, Upstreams, DistinctNames;
    if stmts[k].Block? {
      EventsMean(stmts[k].body, |stmts[k].body|);
      StreamMeans(stmts[k].body, addrOf);
      HttpMeans(stmts[k].body, |stmts[k].body|, addrOf);
    }
  }

  lemma {:induction false} FileAfterMeans(stmts: seq<Stmt>, k: nat, addrOf: AddrParser)
    requires k <= |stmts|
    ensures FileAfter(stmts, k, addrOf).Ok? <==> forall j | 0 <= j < k :: GoodInFile(stmts[j], addrOf)
    ensures FileAfter(stmts, k, addrOf).Ok? ==> FileAfter(stmts, k, addrOf) == Ok(FileFields(stmts, k, addrOf))
    decreases k
  {
    hide FileStep, FileFields, GoodInFile;
    if k == 0 {
      NoStatements(stmts, addrOf);
    } else {
      FileAfterMeans(stmts, k - 1, addrOf);
      FileStepMeans(stmts, k - 1, addrOf);
    }
  }

  /**
   * A configuration text is accepted exactly when it is in the language of the grammar, its
   * statements are good, there is a server, and all references to an upstream agree; it then
   * means what its last blocks say.
   */
  lemma ConfigMeans(src: string, addrOf: AddrParser)
    ensures ConfigOf(src, addrOf).Ok? <==>
            FileRule(src).Some? &&
            var stmts := FileRule(src).value;
            var c := FileFields(stmts, |stmts|, addrOf);
            && (forall j | 0 <= j < |stmts| :: GoodInFile(stmts[j], addrOf))
            && (c.http.servers != [] || c.stream != []) && Schemes.LocationsAgree(c.http)
    ensures ConfigOf(src, addrOf).Ok? ==>
              ConfigOf(src, addrOf) == Ok(FileFields(FileRule(src).value, |FileRule(src).value|, addrOf))
  {
    hide GoodInFile, FileFields;
    if FileRule(src).Some? {
      var stmts := FileRule(src).value;
      FileAfterMeans(stmts, |stmts|, addrOf);
      Schemes.NoClashIffAgree(Schemes.Refs(FileFields(stmts, |stmts|, addrOf).http));
      Schemes.RefsAgreeIffLocationsAgree(FileFields(stmts, |stmts|, addrOf).http);
    }
  }
}
