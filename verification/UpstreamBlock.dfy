/** `upstream NAME { … }`: the addresses of a pool and its health check. */
module UpstreamBlock {
  import opened Wrappers
  import opened Decimal
  import opened Addresses
  import opened Grammar
  import opened Values
  import opened Config

  // ---- health_check ----

  function IntervalOf(v: string): Result<nat, ConfigError> {
    match ParseUint(v, U32_MAX)
    case None => Err(HealthIntervalNotNumber)
    case Some(n) => if n == 0 then Err(HealthIntervalZero) else Ok(n)
  }

  function UriOf(v: string): Result<string, ConfigError> {
    if v != [] && v[0] == '/' then Ok(v) else Err(HealthUriNoSlash)
  }

  /** The options of a `health_check` directive: names and values in turn, changing `hc`. */
  function HealthArgs(hc: HealthCheck, args: seq<string>): Result<HealthCheck, ConfigError>
    decreases |args|
  {
    if args == [] then Ok(hc)
    else if args[0] == "interval" then
      if |args| < 2 then Err(HealthOptionNeedsValue("interval")) else
      match IntervalOf(args[1])
      case Err(e) => Err(e)
      case Ok(n) => HealthArgs(hc.(intervalSecs := n), args[2..])
    else if args[0] == "uri" then
      if |args| < 2 then Err(HealthOptionNeedsValue("uri")) else
      match UriOf(args[1])
      case Err(e) => Err(e)
      case Ok(uri) => HealthArgs(hc.(uri := uri), args[2..])
    else Err(UnknownHealthOption(args[0]))
  }

  function HealthOrDefault(hc: Option<HealthCheck>): HealthCheck {
    match hc
    case None => DEFAULT_HEALTH_CHECK
    case Some(h) => h
  }

  method ApplyHealthCheck(healthCheck: Option<HealthCheck>, args: seq<string>) returns (r: Result<HealthCheck, ConfigError>)
    ensures r == HealthArgs(HealthOrDefault(healthCheck), args)
  {
    var hc := HealthOrDefault(healthCheck);
    var i := 0;
    assert args[0..] == args;
    while i < |args|
      invariant 0 <= i <= |args|
      invariant HealthArgs(hc, args[i..]) == HealthArgs(HealthOrDefault(healthCheck), args)
    {
      if args[i] == "interval" {
        i := i + 1;
        if i == |args| {
          return Err(HealthOptionNeedsValue("interval"));
        }
        assert args[i - 1..][1] == args[i] && args[i - 1..][2..] == args[i + 1..];
        var n := IntervalOf(args[i]);
        if n.Err? {
          return Err(n.error);
        }
        hc := hc.(intervalSecs := n.value);
        i := i + 1;
      } else if args[i] == "uri" {
        i := i + 1;
        if i == |args| {
          return Err(HealthOptionNeedsValue("uri"));
        }
        assert args[i - 1..][1] == args[i] && args[i - 1..][2..] == args[i + 1..];
        var uri := UriOf(args[i]);
        if uri.Err? {
          return Err(uri.error);
        }
        hc := hc.(uri := uri.value);
        i := i + 1;
      } else {
        return Err(UnknownHealthOption(args[i]));
      }
    }
    r := Ok(hc);
  }

  /** An interval is a positive number that fits 32 bits. */
  lemma IntervalMeans(v: string, n: nat)
    ensures IntervalOf(v) == Ok(n) <==> n > 0 && Denotes(v, n, 4_294_967_295)
  {
    hide ParseUint, Denotes;
    ParseUintMeans(v, U32_MAX, n);
    ParseUintMeans(v, U32_MAX, 0);
  }

  lemma UriMeans(v: string, uri: string)
    ensures UriOf(v) == Ok(uri) <==> "/" <= v && uri == v
  {
  }

  /** Two `health_check` directives one after the other are one with the arguments of both. */
  lemma {:induction false} HealthArgsConcat(hc: HealthCheck, xs: seq<string>, ys: seq<string>)
    requires HealthArgs(hc, xs).Ok?
    ensures HealthArgs(hc, xs + ys) == HealthArgs(HealthArgs(hc, xs).value, ys)
    decreases |xs|
  {
    if xs == [] {
      assert xs + ys == ys;
    } else {
      assert (xs + ys)[2..] == xs[2..] + ys;
      if xs[0] == "interval" {
        HealthArgsConcat(hc.(intervalSecs := IntervalOf(xs[1]).value), xs[2..], ys);
      } else {
        HealthArgsConcat(hc.(uri := xs[1]), xs[2..], ys);
      }
    }
  }

  /** An option name followed by a value it accepts. */
  predicate GoodOption(name: string, value: string) {
    (name == "interval" && IntervalOf(value).Ok?) || (name == "uri" && UriOf(value).Ok?)
  }

  predicate GoodOptions(args: seq<string>) {
    |args| % 2 == 0 && forall i | 0 <= i < |args| && i % 2 == 0 :: GoodOption(args[i], args[i + 1])
  }

  /** The value that follows the last option `name`, or `default`. */
  function LastOption(args: seq<string>, name: string, default: string): string
    requires |args| % 2 == 0
  {
    if args == [] then default
    else if args[|args| - 2] == name then args[|args| - 1]
    else LastOption(args[..|args| - 2], name, default)
  }

  /** Options are accepted exactly when each name has a good value; of each name the last value counts. */
  lemma {:induction false} HealthArgsMean(hc: HealthCheck, args: seq<string>, interval: string)
    requires IntervalOf(interval) == Ok(hc.intervalSecs)
    ensures HealthArgs(hc, args).Ok? <==> GoodOptions(args)
    ensures GoodOptions(args) ==>
              && IntervalOf(LastOption(args, "interval", interval)).Ok?
              && HealthArgs(hc, args)
                 == Ok(HealthCheck(IntervalOf(LastOption(args, "interval", interval)).value, LastOption(args, "uri", hc.uri)))
    decreases |args|
  {
    hide HealthArgs, IntervalOf, UriOf;
    OptionsAreGood(hc, args);
    NoOptions(hc);
    if GoodOptions(args) && args != [] {
      var n := |args| - 2;
      var xs := args[..n];
      assert args == xs + [args[n], args[n + 1]];
      assert GoodOption(args[n], args[n + 1]);
      HealthArgsMean(hc, xs, interval);
      HealthArgsConcat(hc, xs, [args[n], args[n + 1]]);
      OneOption(HealthArgs(hc, xs).value, args[n], args[n + 1]);
    }
  }

  lemma NoOptions(hc: HealthCheck)
    ensures HealthArgs(hc, []) == Ok(hc)
  {
  }

  lemma OneOption(hc: HealthCheck, name: string, value: string)
    requires GoodOption(name, value)
    ensures name != "interval" ==> name == "uri"
    ensures HealthArgs(hc, [name, value])
         == Ok(if name == "interval" then hc.(intervalSecs := IntervalOf(value).value) else hc.(uri := value))
    ensures name == "interval" ==> IntervalOf(value).Ok?
  {
    assert [name, value][2..] == [];
    NoOptions(hc);
  }

  lemma {:induction false} OptionsAreGood(hc: HealthCheck, args: seq<string>)
    ensures HealthArgs(hc, args).Ok? <==> GoodOptions(args)
    decreases |args|
  {
    if |args| >= 2 {
      var rest := args[2..];
      assert GoodOptions(args) <==> GoodOption(args[0], args[1]) && GoodOptions(rest) by {
        GoodOptionsCons(args);
      }
      if args[0] == "interval" && IntervalOf(args[1]).Ok? {
        OptionsAreGood(hc.(intervalSecs := IntervalOf(args[1]).value), rest);
      } else if args[0] == "uri" && UriOf(args[1]).Ok? {
        OptionsAreGood(hc.(uri := args[1]), rest);
      }
    }
  }

  lemma GoodOptionsCons(args: seq<string>)
    requires |args| >= 2
    ensures GoodOptions(args) <==> GoodOption(args[0], args[1]) && GoodOptions(args[2..])
  {
    var rest := args[2..];
    if GoodOption(args[0], args[1]) && GoodOptions(rest) {
      forall i | 0 <= i < |args| && i % 2 == 0 ensures GoodOption(args[i], args[i + 1]) {
        if i >= 2 {
          assert GoodOption(rest[i - 2], rest[i - 1]);
        }
      }
    }
    if GoodOptions(args) {
      forall i | 0 <= i < |rest| && i % 2 == 0 ensures GoodOption(rest[i], rest[i + 1]) {
        assert GoodOption(args[i + 2], args[i + 3]);
      }
    }
  }

  // ---- The block ----

  datatype State = State(servers: seq<SocketAddr>, healthCheck: Option<HealthCheck>)

  function ServerAddr(args: seq<string>, addrOf: AddrParser): Result<SocketAddr, ConfigError> {
    if args == [] then Err(ServerNeedsAddress) else ListenAddr(args[0], addrOf)
  }

  lemma ServerAddrMeans(args: seq<string>, addrOf: AddrParser, a: SocketAddr)
    ensures ServerAddr(args, addrOf) == Ok(a) <==> args != [] && SaysAddress(args[0], a, addrOf)
  {
  }

  function Step(s: State, st: Stmt, addrOf: AddrParser): Result<State, ConfigError> {
    match st
    case Block(_, _, _) => Ok(s)
    case Directive(name, args) =>
      if name == "server" then
        match ServerAddr(ArgValues(args), addrOf)
        case Err(e) => Err(e)
        case Ok(addr) => Ok(s.(servers := s.servers + [addr]))
      else if name == "health_check" then
        match HealthArgs(HealthOrDefault(s.healthCheck), ArgValues(args))
        case Err(e) => Err(e)
        case Ok(hc) => Ok(s.(healthCheck := Some(hc)))
      else Err(UnknownDirective(InUpstream, name))
  }

  function After(stmts: seq<Stmt>, k: nat, addrOf: AddrParser): Result<State, ConfigError>
    requires k <= |stmts|
  {
    if k == 0 then Ok(State([], None)) else
    match After(stmts, k - 1, addrOf)
    case Err(e) => Err(e)
    case Ok(s) => Step(s, stmts[k - 1], addrOf)
  }

  /** What an upstream block means. */
  function UpstreamOf(name: string, stmts: seq<Stmt>, addrOf: AddrParser): Result<Upstream, ConfigError> {
    match After(stmts, |stmts|, addrOf)
    case Err(e) => Err(e)
    case Ok(s) =>
      if s.servers == [] then Err(UpstreamNeedsServer(name)) else Ok(Upstream(name, s.servers, s.healthCheck))
  }

  lemma {:induction false} ErrorStays(stmts: seq<Stmt>, k: nat, addrOf: AddrParser)
    requires k <= |stmts|
    ensures After(stmts, k, addrOf).Err? ==> After(stmts, |stmts|, addrOf) == After(stmts, k, addrOf)
    decreases |stmts| - k
  {
    if k < |stmts| {
      ErrorStays(stmts, k + 1, addrOf);
    }
  }

  method ParseUpstreamBlock(name: string, stmts: seq<Stmt>, addrOf: AddrParser) returns (r: Result<Upstream, ConfigError>)
    ensures r == UpstreamOf(name, stmts, addrOf)
  {
    var servers: seq<SocketAddr> := [];
    var healthCheck: Option<HealthCheck> := None;
    for i := 0 to |stmts|
      invariant After(stmts, i, addrOf) == Ok(State(servers, healthCheck))
    {
      ErrorStays(stmts, i + 1, addrOf);
      if stmts[i].Directive? {
        var args := ArgValues(stmts[i].args);
        if stmts[i].name == "server" {
          var addr := ServerAddr(args, addrOf);
          if addr.Err? {
            return Err(addr.error);
          }
          servers := servers + [addr.value];
        } else if stmts[i].name == "health_check" {
          var hc := ApplyHealthCheck(healthCheck, args);
          if hc.Err? {
            return Err(hc.error);
          }
          healthCheck := Some(hc.value);
        } else {
          return Err(UnknownDirective(InUpstream, stmts[i].name));
        }
      }
    }
    if servers == [] {
      return Err(UpstreamNeedsServer(name));
    }
    r := Ok(Upstream(name, servers, healthCheck));
  }

  // ---- Meaning of the block ----

  predicate IsServer(st: Stmt) {
    st.Directive? && st.name == "server"
  }

  predicate IsHealthCheck(st: Stmt) {
    st.Directive? && st.name == "health_check"
  }

  predicate GoodStatement(st: Stmt, addrOf: AddrParser) {
    || st.Block?
    || (IsServer(st) && ServerAddr(ArgValues(st.args), addrOf).Ok?)
    || (IsHealthCheck(st) && GoodOptions(ArgValues(st.args)))
  }

  /** The addresses of the first `k` statements, in order. */
  function Addrs(stmts: seq<Stmt>, k: nat, addrOf: AddrParser): seq<SocketAddr>
    requires k <= |stmts|
  {
    if k == 0 then []
    else
      var st := stmts[k - 1];
      Addrs(stmts, k - 1, addrOf)
      + if IsServer(st) && ServerAddr(ArgValues(st.args), addrOf).Ok? then [ServerAddr(ArgValues(st.args), addrOf).value] else []
  }

  /**
   * What options say of a health check: the last interval in seconds, or 5, and the last
   * request path, or "/".
   */
  ghost predicate SaysHealth(hc: HealthCheck, options: seq<string>)
    requires |options| % 2 == 0
  {
    Denotes(LastOption(options, "interval", "5"), hc.intervalSecs, 4_294_967_295)
    && hc.uri == LastOption(options, "uri", "/")
  }

  lemma OptionsSay(options: seq<string>)
    requires HealthArgs(DEFAULT_HEALTH_CHECK, options).Ok?
    ensures |options| % 2 == 0 && SaysHealth(HealthArgs(DEFAULT_HEALTH_CHECK, options).value, options)
  {
    hide HealthArgs, LastOption, ParseUint, Denotes;
    ParsePrinted(5, U32_MAX);
    assert Digits(5) == "5";
    HealthArgsMean(DEFAULT_HEALTH_CHECK, options, "5");
    IntervalMeans(LastOption(options, "interval", "5"), HealthArgs(DEFAULT_HEALTH_CHECK, options).value.intervalSecs);
  }

  /** The options of all `health_check` directives together. */
  function AllOptions(stmts: seq<Stmt>, k: nat): seq<string>
    requires k <= |stmts|
  {
    if k == 0 then []
    else AllOptions(stmts, k - 1) + if IsHealthCheck(stmts[k - 1]) then ArgValues(stmts[k - 1].args) else []
  }

  predicate SomeHealthCheck(stmts: seq<Stmt>, k: nat)
    requires k <= |stmts|
  {
    exists j | 0 <= j < k :: IsHealthCheck(stmts[j])
  }

  lemma {:induction false} AfterMeans(stmts: seq<Stmt>, k: nat, addrOf: AddrParser)
    requires k <= |stmts|
    ensures After(stmts, k, addrOf).Ok? <==> forall j | 0 <= j < k :: GoodStatement(stmts[j], addrOf)
    ensures After(stmts, k, addrOf).Ok? ==>
              var s := After(stmts, k, addrOf).value;
              && s.servers == Addrs(stmts, k, addrOf)
              && HealthArgs(DEFAULT_HEALTH_CHECK, AllOptions(stmts, k)) == Ok(HealthOrDefault(s.healthCheck))
              && (s.healthCheck.Some? <==> SomeHealthCheck(stmts, k))
    decreases k
  {
    hide HealthArgs, GoodOptions, ServerAddr, ArgValues;
    if k == 0 {
      NoOptions(DEFAULT_HEALTH_CHECK);
    } else {
      AfterMeans(stmts, k - 1, addrOf);
      if After(stmts, k - 1, addrOf).Ok? {
        var s := After(stmts, k - 1, addrOf).value;
        var st := stmts[k - 1];
        if IsHealthCheck(st) {
          OptionsAreGood(HealthOrDefault(s.healthCheck), ArgValues(st.args));
          HealthArgsConcat(DEFAULT_HEALTH_CHECK, AllOptions(stmts, k - 1), ArgValues(st.args));
        } else {
          assert AllOptions(stmts, k) == AllOptions(stmts, k - 1);
        }
      }
    }
  }

  /**
   * An upstream block is accepted exactly when every directive is a readable server or health
   * check and there is a server. Its servers are all of them in order; its health check, if
   * there is one, is what all options together say.
   */
  lemma UpstreamMeans(name: string, stmts: seq<Stmt>, addrOf: AddrParser)
    ensures UpstreamOf(name, stmts, addrOf).Ok? <==>
            (forall j | 0 <= j < |stmts| :: GoodStatement(stmts[j], addrOf)) && exists j | 0 <= j < |stmts| :: IsServer(stmts[j])
    ensures UpstreamOf(name, stmts, addrOf).Ok? ==>
              var u := UpstreamOf(name, stmts, addrOf).value;
              && u.name == name && u.servers == Addrs(stmts, |stmts|, addrOf) != []
              && (u.healthCheck.Some? <==> SomeHealthCheck(stmts, |stmts|))
              && (u.healthCheck.Some? ==>
                    && |AllOptions(stmts, |stmts|)| % 2 == 0 && SaysHealth(u.healthCheck.value, AllOptions(stmts, |stmts|))
                    && u.healthCheck.value.intervalSecs > 0 && "/" <= u.healthCheck.value.uri)
  {
    hide SaysHealth;
    AfterMeans(stmts, |stmts|, addrOf);
    if After(stmts, |stmts|, addrOf).Ok? {
      AddrsNonEmpty(stmts, |stmts|, addrOf);
      HealthArgsStayGood(DEFAULT_HEALTH_CHECK, AllOptions(stmts, |stmts|));
      OptionsSay(AllOptions(stmts, |stmts|));
    }
  }

  lemma {:induction false} AddrsNonEmpty(stmts: seq<Stmt>, k: nat, addrOf: AddrParser)
    requires k <= |stmts| && forall j | 0 <= j < k :: GoodStatement(stmts[j], addrOf)
    ensures Addrs(stmts, k, addrOf) != [] <==> exists j | 0 <= j < k :: IsServer(stmts[j])
    decreases k
  {
    if k > 0 {
      AddrsNonEmpty(stmts, k - 1, addrOf);
    }
  }

  /** A health check never has interval 0 or a uri without a slash in front. */
  lemma {:induction false} HealthArgsStayGood(hc: HealthCheck, args: seq<string>)
    requires hc.intervalSecs > 0 && UriOf(hc.uri).Ok? && HealthArgs(hc, args).Ok?
    ensures HealthArgs(hc, args).value.intervalSecs > 0 && UriOf(HealthArgs(hc, args).value.uri).Ok?
    decreases |args|
  {
    if args != [] {
      if args[0] == "interval" {
        HealthArgsStayGood(hc.(intervalSecs := IntervalOf(args[1]).value), args[2..]);
      } else {
        HealthArgsStayGood(hc.(uri := args[1]), args[2..]);
      }
    }
  }
}
