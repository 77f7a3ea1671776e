/** `location PATH { … }`: exactly one of `return`, `proxy_pass` and `root`, and their companions. */
module LocationBlock {
  import opened Wrappers
  import opened Decimal
  import opened Grammar
  import opened Values
  import opened Config
  import Routing

  datatype State = State(
    ret: Option<(nat, string)>,
    pass: Option<ProxyPass>,
    root: Option<string>,
    index: seq<string>,
    verify: bool)

  const START := State(None, None, None, [], true)

  function ReturnArgs(args: seq<string>): Result<(nat, string), ConfigError> {
    if |args| < 2 then Err(ReturnNeedsStatusAndBody)
    else match ParseUint(args[0], U16_MAX)
      case None => Err(ReturnStatusNotNumber)
      case Some(status) => Ok((status, args[1]))
  }

  function ProxyPassArgs(args: seq<string>, addrOf: AddrParser): Result<ProxyPass, ConfigError> {
    match OneString(args, "proxy_pass")
    case Err(e) => Err(e)
    case Ok(url) => ProxyPassUrl(url, addrOf)
  }

  function SslVerifyArgs(args: seq<string>): Result<bool, ConfigError> {
    match OneString(args, "proxy_ssl_verify")
    case Err(e) => Err(e)
    case Ok(v) => if v == "off" then Ok(false) else if v == "on" then Ok(true) else Err(SslVerifyNotOnOff(v))
  }

  predicate HasAction(s: State) {
    s.ret.Some? || s.pass.Some? || s.root.Some?
  }

  function OnReturn(path: string, s: State, args: seq<string>): Result<State, ConfigError> {
    if HasAction(s) then Err(DuplicateAction(path)) else
    match ReturnArgs(args)
    case Err(e) => Err(e)
    case Ok(r) => Ok(s.(ret := Some(r)))
  }

  function OnProxyPass(path: string, s: State, args: seq<string>, addrOf: AddrParser): Result<State, ConfigError> {
    if HasAction(s) then Err(DuplicateAction(path)) else
    match ProxyPassArgs(args, addrOf)
    case Err(e) => Err(e)
    case Ok(p) => Ok(s.(pass := Some(p.(sslVerify := s.verify))))
  }

  function OnSslVerify(s: State, args: seq<string>): Result<State, ConfigError> {
    match SslVerifyArgs(args)
    case Err(e) => Err(e)
    case Ok(v) => Ok(s.(verify := v, pass := match s.pass case None => None case Some(p) => Some(p.(sslVerify := v))))
  }

  function OnRoot(path: string, s: State, args: seq<string>): Result<State, ConfigError> {
    if HasAction(s) then Err(DuplicateAction(path)) else
    match OneString(args, "root")
    case Err(e) => Err(e)
    case Ok(root) => Ok(s.(root := Some(root)))
  }

  function OnIndex(path: string, s: State, args: seq<string>): Result<State, ConfigError> {
    if !HasAction(s) then Err(IndexRequiresRoot(path))
    else if s.ret.Some? || s.pass.Some? then Err(DuplicateAction(path))
    else if args == [] then Err(IndexNeedsName)
    else Ok(s.(index := s.index + args))
  }

  /** One statement of the block; nested blocks are passed over. */
  function Step(path: string, s: State, st: Stmt, addrOf: AddrParser): Result<State, ConfigError> {
    match st
    case Block(_, _, _) => Ok(s)
    case Directive(name, args) =>
      var values := ArgValues(args);
      if name == "return" then OnReturn(path, s, values)
      else if name == "proxy_pass" then OnProxyPass(path, s, values, addrOf)
      else if name == "proxy_ssl_verify" then OnSslVerify(s, values)
      else if name == "root" then OnRoot(path, s, values)
      else if name == "index" then OnIndex(path, s, values)
      else Err(UnknownDirective(InLocation, name))
  }

  /** The state after the first `k` statements, or the first error. */
  function After(path: string, stmts: seq<Stmt>, k: nat, addrOf: AddrParser): Result<State, ConfigError>
    requires k <= |stmts|
  {
    if k == 0 then Ok(START) else
    match After(path, stmts, k - 1, addrOf)
    case Err(e) => Err(e)
    case Ok(s) => Step(path, s, stmts[k - 1], addrOf)
  }

  function Finish(path: string, s: State): Result<Location, ConfigError> {
    match (s.ret, s.pass, s.root)
    case (Some(r), None, None) => Ok(Routing.Location(path, Return(r.0, r.1)))
    case (None, Some(p), None) => Ok(Routing.Location(path, Proxy(p)))
    case (None, None, Some(root)) =>
      Ok(Routing.Location(path, Static(root, if s.index == [] then ["index.html"] else s.index)))
    case (None, None, None) => Err(LocationNeedsAction(path))
    case _ => Err(ConflictingDirectives(path))
  }

  /** What a location block means. */
  function LocationOf(path: string, stmts: seq<Stmt>, addrOf: AddrParser): Result<Location, ConfigError> {
    match After(path, stmts, |stmts|, addrOf)
    case Err(e) => Err(e)
    case Ok(s) => Finish(path, s)
  }

  lemma {:induction false} ErrorStays(path: string, stmts: seq<Stmt>, k: nat, addrOf: AddrParser)
    requires k <= |stmts|
    ensures After(path, stmts, k, addrOf).Err? ==> After(path, stmts, |stmts|, addrOf) == After(path, stmts, k, addrOf)
    decreases |stmts| - k
  {
    if k < |stmts| {
      ErrorStays(path, stmts, k + 1, addrOf);
    }
  }

  method ParseLocationBlock(path: string, stmts: seq<Stmt>, addrOf: AddrParser) returns (r: Result<Location, ConfigError>)
    ensures r == LocationOf(path, stmts, addrOf)
  {
    var ret: Option<(nat, string)> := None;
    var pass: Option<ProxyPass> := None;
    var root: Option<string> := None;
    var index: seq<string> := [];
    var verify := true;
    for i := 0 to |stmts|
      invariant After(path, stmts, i, addrOf) == Ok(State(ret, pass, root, index, verify))
    {
      ErrorStays(path, stmts, i + 1, addrOf);
      if stmts[i].Directive? {
        var name, args := stmts[i].name, ArgValues(stmts[i].args);
        if name == "return" {
          if ret.Some? || pass.Some? || root.Some? {
            return Err(DuplicateAction(path));
          }
          var read := ReturnArgs(args);
          if read.Err? {
            return Err(read.error);
          }
          ret := Some(read.value);
        } else if name == "proxy_pass" {
          if ret.Some? || pass.Some? || root.Some? {
            return Err(DuplicateAction(path));
          }
          var read := ProxyPassArgs(args, addrOf);
          if read.Err? {
            return Err(read.error);
          }
          pass := Some(read.value.(sslVerify := verify));
        } else if name == "proxy_ssl_verify" {
          var read := SslVerifyArgs(args);
          if read.Err? {
            return Err(read.error);
          }
          verify := read.value;
          if pass.Some? {
            pass := Some(pass.value.(sslVerify := verify));
          }
        } else if name == "root" {
          if ret.Some? || pass.Some? || root.Some? {
            return Err(DuplicateAction(path));
          }
          var read := OneString(args, "root");
          if read.Err? {
            return Err(read.error);
          }
          root := Some(read.value);
        } else if name == "index" {
          if root.None? && ret.None? && pass.None? {
            return Err(IndexRequiresRoot(path));
          }
          if ret.Some? || pass.Some? {
            return Err(DuplicateAction(path));
          }
          if args == [] {
            return Err(IndexNeedsName);
          }
          index := index + args;
        } else {
          return Err(UnknownDirective(InLocation, name));
        }
      }
    }
    r := Finish(path, State(ret, pass, root, index, verify));
  }
}
