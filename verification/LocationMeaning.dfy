/** When a location block is accepted and what it then is, without reference to the order of evaluation. */
module LocationMeaning {
  import opened Wrappers
  import opened Decimal
  import opened Addresses
  import opened Grammar
  import opened Values
  import opened Config
  import opened LocationBlock
  import Routing

  function ValuesOf(st: Stmt): seq<string>
    requires st.Directive?
  {
    ArgValues(st.args)
  }

  // ---- What statements say, by the text of their arguments ----

  /** `return STATUS BODY`. */
  ghost predicate SaysReturn(st: Stmt, status: nat, body: string) {
    IsSetting(st, "return") &&
    var args := ValuesOf(st);
    |args| >= 2 && Denotes(args[0], status, 65_535) && args[1] == body
  }

  /** `proxy_pass URL`. */
  ghost predicate SaysProxy(st: Stmt, scheme: ProxyScheme, target: ProxyTarget, addrOf: AddrParser) {
    IsSetting(st, "proxy_pass") && ValuesOf(st) != [] && SaysUrl(ValuesOf(st)[0], scheme, target, addrOf)
  }

  /** `root PATH`. */
  predicate SaysRoot(st: Stmt, root: string) {
    IsSetting(st, "root") && ValuesOf(st) != [] && ValuesOf(st)[0] == root
  }

  /** `proxy_ssl_verify on` or `off`. */
  predicate SaysVerify(st: Stmt, on: bool) {
    IsSetting(st, "proxy_ssl_verify") && ValuesOf(st) != [] && ValuesOf(st)[0] == if on then "on" else "off"
  }

  /** A directive that says what the location does, with arguments that can be read. */
  ghost predicate IsAction(st: Stmt, addrOf: AddrParser) {
    || (exists status, body :: SaysReturn(st, status, body))
    || (exists scheme, target :: SaysProxy(st, scheme, target, addrOf))
    || (exists root :: SaysRoot(st, root))
  }

  /** A statement that may stand beside an action; `afterRoot` says whether that is a `root` before it. */
  predicate IsCompanion(st: Stmt, afterRoot: bool) {
    || st.Block?
    || SaysVerify(st, true) || SaysVerify(st, false)
    || (IsSetting(st, "index") && afterRoot && ValuesOf(st) != [])
  }

  /** Statement `a` of the first `k` is their one action, all others are companions of it. */
  ghost predicate OneAction(stmts: seq<Stmt>, a: int, k: nat, addrOf: AddrParser)
    requires k <= |stmts|
  {
    && (0 <= a < k ==> IsAction(stmts[a], addrOf))
    && forall j | 0 <= j < k && j != a :: IsCompanion(stmts[j], 0 <= a < j && IsSetting(stmts[a], "root"))
  }

  /** The last `proxy_ssl_verify` of the first `k` statements says `off`. */
  ghost predicate LastSaysOff(stmts: seq<Stmt>, k: nat)
    requires k <= |stmts|
  {
    exists j | 0 <= j < k ::
      SaysVerify(stmts[j], false) && forall i | j < i < k :: !IsSetting(stmts[i], "proxy_ssl_verify")
  }

  /** The arguments of all `index` directives, in order. */
  function AllIndexes(stmts: seq<Stmt>, k: nat): seq<string>
    requires k <= |stmts|
  {
    if k == 0 then []
    else AllIndexes(stmts, k - 1) + if IsSetting(stmts[k - 1], "index") then ValuesOf(stmts[k - 1]) else []
  }

  /** What a location block with action `a` does. */
  ghost predicate Does(action: Action, stmts: seq<Stmt>, a: nat, addrOf: AddrParser)
    requires a < |stmts|
  {
    match action
    case Return(status, body) => SaysReturn(stmts[a], status, body)
    case Proxy(pass) =>
      SaysProxy(stmts[a], pass.scheme, pass.target, addrOf) && (pass.sslVerify <==> !LastSaysOff(stmts, |stmts|))
    case Static(root, index) =>
      && SaysRoot(stmts[a], root)
      && index == if AllIndexes(stmts, |stmts|) == [] then ["index.html"] else AllIndexes(stmts, |stmts|)
  }

  // ---- The readers agree ----

  lemma ReturnRead(st: Stmt, status: nat, body: string)
    requires IsSetting(st, "return")
    ensures ReturnArgs(ValuesOf(st)) == Ok((status, body)) <==> SaysReturn(st, status, body)
  {
    hide ParseUint, Denotes;
    if |ValuesOf(st)| >= 2 {
      ParseUintMeans(ValuesOf(st)[0], U16_MAX, status);
    }
  }

  lemma ProxyRead(st: Stmt, p: ProxyPass, addrOf: AddrParser)
    requires IsSetting(st, "proxy_pass")
    ensures ProxyPassArgs(ValuesOf(st), addrOf) == Ok(p) <==>
            p.sslVerify && SaysProxy(st, p.scheme, p.target, addrOf)
  {
    hide ProxyPassUrl, SaysUrl;
    if ValuesOf(st) != [] {
      ProxyPassUrlMeans(ValuesOf(st)[0], addrOf, p);
    }
  }

  lemma VerifyRead(st: Stmt, on: bool)
    requires IsSetting(st, "proxy_ssl_verify")
    ensures SslVerifyArgs(ValuesOf(st)) == Ok(on) <==> SaysVerify(st, on)
  {
    assert "on"[1] == 'n' && "off"[1] == 'f';
  }

  /** Which directives a location reads as its action. */
  predicate ReadsAction(st: Stmt, addrOf: AddrParser) {
    || (IsSetting(st, "return") && ReturnArgs(ValuesOf(st)).Ok?)
    || (IsSetting(st, "proxy_pass") && ProxyPassArgs(ValuesOf(st), addrOf).Ok?)
    || (IsSetting(st, "root") && OneString(ValuesOf(st), "root").Ok?)
  }

  lemma ActionsRead(st: Stmt, addrOf: AddrParser)
    ensures ReadsAction(st, addrOf) <==> IsAction(st, addrOf)
  {
    hide ReturnArgs, ProxyPassArgs, SaysUrl, Denotes;
    if IsSetting(st, "return") {
      forall status: nat, body ensures ReturnArgs(ValuesOf(st)) == Ok((status, body)) <==> SaysReturn(st, status, body) {
        ReturnRead(st, status, body);
      }
      if ReturnArgs(ValuesOf(st)).Ok? {
        var r := ReturnArgs(ValuesOf(st)).value;
        assert SaysReturn(st, r.0, r.1);
      }
    } else if IsSetting(st, "proxy_pass") {
      if ProxyPassArgs(ValuesOf(st), addrOf).Ok? {
        var p := ProxyPassArgs(ValuesOf(st), addrOf).value;
        ProxyRead(st, p, addrOf);
      }
      forall scheme, target | SaysProxy(st, scheme, target, addrOf) ensures ProxyPassArgs(ValuesOf(st), addrOf).Ok? {
        ProxyRead(st, ProxyPass(scheme, true, target), addrOf);
      }
    } else if IsSetting(st, "root") && ValuesOf(st) != [] {
      assert SaysRoot(st, ValuesOf(st)[0]);
    }
  }

  // ---- The state after some statements ----

  /** The value of the last `proxy_ssl_verify`, or true. */
  function LastVerify(stmts: seq<Stmt>, k: nat): bool
    requires k <= |stmts|
  {
    if k == 0 then true
    else if IsSetting(stmts[k - 1], "proxy_ssl_verify") then !SaysVerify(stmts[k - 1], false)
    else LastVerify(stmts, k - 1)
  }

  lemma {:induction false} LastVerifyIs(stmts: seq<Stmt>, k: nat)
    requires k <= |stmts|
    ensures LastVerify(stmts, k) <==> !LastSaysOff(stmts, k)
    decreases k
  {
    hide SaysVerify;
    if k > 0 {
      LastVerifyIs(stmts, k - 1);
      VerifyNamed(stmts[k - 1]);
    }
  }

  lemma VerifyNamed(st: Stmt)
    ensures SaysVerify(st, true) || SaysVerify(st, false) ==> IsSetting(st, "proxy_ssl_verify")
  {
  }

  /** The state that the first `k` statements of such a block leave. */
  ghost function StateOf(stmts: seq<Stmt>, a: int, k: nat, addrOf: AddrParser): State
    requires k <= |stmts| && (0 <= a < k ==> IsAction(stmts[a], addrOf))
  {
    var verify := LastVerify(stmts, k);
    var before := START.(verify := verify, index := AllIndexes(stmts, k));
    if !(0 <= a < k) then before else
    ActionsRead(stmts[a], addrOf);
    if IsSetting(stmts[a], "return") then before.(ret := Some(ReturnArgs(ValuesOf(stmts[a])).value))
    else if IsSetting(stmts[a], "proxy_pass") then
      before.(pass := Some(ProxyPassArgs(ValuesOf(stmts[a]), addrOf).value.(sslVerify := verify)))
    else before.(root := Some(OneString(ValuesOf(stmts[a]), "root").value))
  }

  /** One more statement, as the action or as a companion. */
  lemma StepFits(path: string, stmts: seq<Stmt>, a: int, k: nat, addrOf: AddrParser)
    requires k < |stmts| && OneAction(stmts, a, k + 1, addrOf)
    requires k <= a || a < 0 ==> AllIndexes(stmts, k) == []
    ensures Step(path, StateOf(stmts, a, k, addrOf), stmts[k], addrOf) == Ok(StateOf(stmts, a, k + 1, addrOf))
    ensures k + 1 <= a || a < 0 ==> AllIndexes(stmts, k + 1) == []
  {
    hide IsAction, SaysVerify, ReturnArgs, ProxyPassArgs, SslVerifyArgs;
    assert AllIndexes(stmts, k) + [] == AllIndexes(stmts, k);
    if k == a {
      ActionsRead(stmts[k], addrOf);
    } else if IsSetting(stmts[k], "proxy_ssl_verify") {
      VerifyRead(stmts[k], true);
      VerifyRead(stmts[k], false);
    }
    VerifyNamed(stmts[k]);
    assert k != a ==> IsCompanion(stmts[k], 0 <= a < k && IsSetting(stmts[a], "root"));
  }

  /** Step accepts nothing else. */
  lemma StepRefuses(path: string, stmts: seq<Stmt>, a: int, k: nat, addrOf: AddrParser) returns (a': int)
    requires k < |stmts| && -1 <= a < k && OneAction(stmts, a, k, addrOf) && (a < 0 ==> AllIndexes(stmts, k) == [])
    requires Step(path, StateOf(stmts, a, k, addrOf), stmts[k], addrOf).Ok?
    ensures -1 <= a' < k + 1 && OneAction(stmts, a', k + 1, addrOf)
    ensures StateOf(stmts, a', k, addrOf) == StateOf(stmts, a, k, addrOf)
  {
    hide IsAction, SaysVerify, ReturnArgs, ProxyPassArgs, SslVerifyArgs;
    ActionsRead(stmts[k], addrOf);
    if a >= 0 {
      ActionsRead(stmts[a], addrOf);
    }
    if IsSetting(stmts[k], "proxy_ssl_verify") {
      VerifyRead(stmts[k], true);
      VerifyRead(stmts[k], false);
    }
    if IsAction(stmts[k], addrOf) {
      assert a == -1;
      a' := k;
      assert forall j | 0 <= j < k :: IsCompanion(stmts[j], false);
    } else {
      a' := a;
    }
  }

  lemma {:induction false} AfterFits(path: string, stmts: seq<Stmt>, a: int, k: nat, addrOf: AddrParser)
    requires k <= |stmts| && OneAction(stmts, a, k, addrOf)
    ensures After(path, stmts, k, addrOf) == Ok(StateOf(stmts, a, k, addrOf))
    ensures k <= a || a < 0 ==> AllIndexes(stmts, k) == []
    decreases k
  {
    if k > 0 {
      hide Step, StateOf, IsAction, IsCompanion;
      AfterFits(path, stmts, a, k - 1, addrOf);
      StepFits(path, stmts, a, k - 1, addrOf);
    }
  }

  lemma {:induction false} AfterRefuses(path: string, stmts: seq<Stmt>, k: nat, addrOf: AddrParser) returns (a: int)
    requires k <= |stmts| && After(path, stmts, k, addrOf).Ok?
    ensures -1 <= a < k && OneAction(stmts, a, k, addrOf)
    decreases k
  {
    a := -1;
    if k > 0 {
      var b := AfterRefuses(path, stmts, k - 1, addrOf);
      AfterFits(path, stmts, b, k - 1, addrOf);
      a := StepRefuses(path, stmts, b, k - 1, addrOf);
    }
  }

  /**
   * A location block is accepted exactly when one of its statements is an action and all
   * others are its companions; it is then that action, whatever the order of the companions:
   * `ssl_verify` is the last one given, before or after `proxy_pass`, and the index is all
   * names given.
   */
  lemma LocationMeans(path: string, stmts: seq<Stmt>, addrOf: AddrParser)
    ensures LocationOf(path, stmts, addrOf).Ok? <==> exists a: nat :: a < |stmts| && OneAction(stmts, a, |stmts|, addrOf)
    ensures forall a: nat | a < |stmts| && OneAction(stmts, a, |stmts|, addrOf) ::
              && LocationOf(path, stmts, addrOf).Ok? && LocationOf(path, stmts, addrOf).value.path == path
              && Does(LocationOf(path, stmts, addrOf).value.action, stmts, a, addrOf)
  {
    hide Does, OneAction;
    forall a: nat | a < |stmts| && OneAction(stmts, a, |stmts|, addrOf)
      ensures LocationOf(path, stmts, addrOf).Ok? && LocationOf(path, stmts, addrOf).value.path == path
      ensures Does(LocationOf(path, stmts, addrOf).value.action, stmts, a, addrOf)
    {
      ActionDone(path, stmts, a, addrOf);
    }
    if LocationOf(path, stmts, addrOf).Ok? {
      var a := AfterRefuses(path, stmts, |stmts|, addrOf);
      AfterFits(path, stmts, a, |stmts|, addrOf);
      assert a >= 0;
    }
  }

  lemma ActionDone(path: string, stmts: seq<Stmt>, a: nat, addrOf: AddrParser)
    requires a < |stmts| && OneAction(stmts, a, |stmts|, addrOf)
    ensures LocationOf(path, stmts, addrOf).Ok? && LocationOf(path, stmts, addrOf).value.path == path
    ensures Does(LocationOf(path, stmts, addrOf).value.action, stmts, a, addrOf)
  {
    hide IsAction, IsCompanion, ReturnArgs, ProxyPassArgs, SaysReturn, SaysProxy, LastSaysOff, LastVerify, AllIndexes;
    AfterFits(path, stmts, a, |stmts|, addrOf);
    assert IsAction(stmts[a], addrOf);
    ActionsRead(stmts[a], addrOf);
    if IsSetting(stmts[a], "return") {
      var r := ReturnArgs(ValuesOf(stmts[a])).value;
      ReturnRead(stmts[a], r.0, r.1);
    } else if IsSetting(stmts[a], "proxy_pass") {
      ProxyRead(stmts[a], ProxyPassArgs(ValuesOf(stmts[a]), addrOf).value, addrOf);
      LastVerifyIs(stmts, |stmts|);
    }
  }

  /** The error for conflicting directives never comes up: a second action is refused before. */
  lemma NeverConflicting(path: string, stmts: seq<Stmt>, addrOf: AddrParser)
    ensures LocationOf(path, stmts, addrOf) != Err(ConflictingDirectives(path))
  {
    if After(path, stmts, |stmts|, addrOf).Ok? {
      var a := AfterRefuses(path, stmts, |stmts|, addrOf);
      AfterFits(path, stmts, a, |stmts|, addrOf);
    } else {
      ErrorsAreOthers(path, stmts, |stmts|, addrOf);
    }
  }

  lemma {:induction false} ErrorsAreOthers(path: string, stmts: seq<Stmt>, k: nat, addrOf: AddrParser)
    requires k <= |stmts|
    ensures After(path, stmts, k, addrOf) != Err(ConflictingDirectives(path))
    decreases k
  {
    if k > 0 {
      ErrorsAreOthers(path, stmts, k - 1, addrOf);
    }
  }

  /** What an accepted location never is: without a name for its index. */
  lemma IndexIsNotEmpty(path: string, stmts: seq<Stmt>, addrOf: AddrParser)
    ensures LocationOf(path, stmts, addrOf).Ok? && LocationOf(path, stmts, addrOf).value.action.Static? ==>
              LocationOf(path, stmts, addrOf).value.action.index != []
  {
  }
}
