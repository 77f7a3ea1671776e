/** How locations refer to upstreams: their agreement, the probe of each upstream, and the clients used. */
module Schemes {
  import opened Wrappers
  import opened Addresses
  import opened Config

  /** A `proxy_pass` that names an upstream. */
  datatype Ref = Ref(name: string, scheme: ProxyScheme, sslVerify: bool)

  function RefOf(l: Location): seq<Ref> {
    if l.action.Proxy? && l.action.pass.target.ToUpstream?
    then [Ref(l.action.pass.target.name, l.action.pass.scheme, l.action.pass.sslVerify)]
    else []
  }

  /** The references of the first `k` locations, in order. */
  function LocationRefs(locations: seq<Location>, k: nat): seq<Ref>
    requires k <= |locations|
  {
    if k == 0 then [] else LocationRefs(locations, k - 1) + RefOf(locations[k - 1])
  }

  /** The references of the first `k` servers, in order. */
  function ServerRefs(servers: seq<Server>, k: nat): seq<Ref>
    requires k <= |servers|
  {
    if k == 0 then [] else ServerRefs(servers, k - 1) + LocationRefs(servers[k - 1].locations, |servers[k - 1].locations|)
  }

  function Refs(http: HttpConfig): seq<Ref> {
    ServerRefs(http.servers, |http.servers|)
  }

  /** All references to an upstream agree with each other, in each pair. */
  ghost predicate Agree(refs: seq<Ref>) {
    forall i, j | 0 <= i < |refs| && 0 <= j < |refs| && refs[i].name == refs[j].name ::
      refs[i].scheme == refs[j].scheme && refs[i].sslVerify == refs[j].sslVerify
  }

  /** For each name the first reference. */
  function FirstRefs(refs: seq<Ref>): map<string, Ref> {
    if refs == [] then map[]
    else
      var n := |refs| - 1;
      var before := FirstRefs(refs[..n]);
      if refs[n].name in before then before else before[refs[n].name := refs[n]]
  }

  /** What is wrong with reference `r`, after the references in `seen`. */
  function ClashWith(seen: map<string, Ref>, r: Ref): Option<ConfigError> {
    if r.name !in seen then None
    else if seen[r.name].scheme != r.scheme then Some(MixedSchemes(r.name))
    else if seen[r.name].sslVerify != r.sslVerify then Some(MixedSslVerify(r.name))
    else None
  }

  /** The first clash, each reference being compared only with the first one of its name. */
  function FirstClash(refs: seq<Ref>): Option<ConfigError> {
    if refs == [] then None
    else
      var n := |refs| - 1;
      match FirstClash(refs[..n])
      case Some(e) => Some(e)
      case None => ClashWith(FirstRefs(refs[..n]), refs[n])
  }

  lemma {:induction false} FirstRefsAreFirst(refs: seq<Ref>, i: nat) returns (j: nat)
    requires i < |refs|
    ensures refs[i].name in FirstRefs(refs)
    ensures j <= i && refs[j].name == refs[i].name && FirstRefs(refs)[refs[i].name] == refs[j]
    ensures forall k | 0 <= k < j :: refs[k].name != refs[i].name
    decreases |refs|
  {
    var n := |refs| - 1;
    if i < n {
      j := FirstRefsAreFirst(refs[..n], i);
    } else if k :| 0 <= k < n && refs[k].name == refs[n].name {
      j := FirstRefsAreFirst(refs[..n], k);
    } else {
      j := n;
      OnlyReferredNames(refs[..n]);
    }
  }

  lemma {:induction false} OnlyReferredNames(refs: seq<Ref>)
    ensures forall name | name in FirstRefs(refs) :: exists k | 0 <= k < |refs| :: refs[k].name == name
  {
    if refs != [] {
      var n := |refs| - 1;
      OnlyReferredNames(refs[..n]);
      forall name | name in FirstRefs(refs) ensures exists k | 0 <= k < |refs| :: refs[k].name == name {
        if name in FirstRefs(refs[..n]) {
          var before := refs[..n];
          var k :| 0 <= k < |before| && before[k].name == name;
          assert refs[k].name == name;
        } else {
          assert refs[n].name == name;
        }
      }
    }
  }

  /** Comparing with the first reference only finds a clash exactly when some pair disagrees. */
  lemma {:induction false} NoClashIffAgree(refs: seq<Ref>)
    ensures FirstClash(refs).None? <==> Agree(refs)
  {
    hide FirstRefs;
    if refs != [] {
      var n := |refs| - 1;
      var before := refs[..n];
      NoClashIffAgree(before);
      if Agree(before) {
        if k :| 0 <= k < n && refs[k].name == refs[n].name {
          var j := FirstRefsAreFirst(before, k);
          assert before[j] == refs[j] && before[k] == refs[k];
          if FirstClash(refs).None? {
            forall i | 0 <= i < n && refs[i].name == refs[n].name
              ensures refs[i].scheme == refs[n].scheme && refs[i].sslVerify == refs[n].sslVerify
            {
              assert before[i] == refs[i];
            }
          }
        } else {
          OnlyReferredNames(before);
          assert refs[n].name !in FirstRefs(before);
        }
      } else {
        var i, j :| 0 <= i < n && 0 <= j < n && before[i].name == before[j].name
                    && (before[i].scheme != before[j].scheme || before[i].sslVerify != before[j].sslVerify);
        assert refs[i] == before[i] && refs[j] == before[j];
      }
    }
  }

  lemma {:induction false} ClashStays(refs: seq<Ref>, more: seq<Ref>)
    requires FirstClash(refs).Some?
    ensures FirstClash(refs + more) == FirstClash(refs)
    decreases |more|
  {
    if more == [] {
      assert refs + more == refs;
    } else {
      assert (refs + more)[..|refs + more| - 1] == refs + more[..|more| - 1];
      ClashStays(refs, more[..|more| - 1]);
    }
  }

  // ---- References up to a location ----

  /** The references of the servers before `i` and of the first `j` locations of server `i`. */
  function RefsUpTo(http: HttpConfig, i: nat, j: nat): seq<Ref>
    requires i < |http.servers| && j <= |http.servers[i].locations|
  {
    ServerRefs(http.servers, i) + LocationRefs(http.servers[i].locations, j)
  }

  lemma RefsUpToNext(http: HttpConfig, i: nat, j: nat)
    requires i < |http.servers| && j < |http.servers[i].locations|
    ensures RefsUpTo(http, i, j + 1) == RefsUpTo(http, i, j) + RefOf(http.servers[i].locations[j])
  {
  }

  lemma OneMoreRef(refs: seq<Ref>, r: Ref)
    ensures FirstRefs(refs + [r]) == if r.name in FirstRefs(refs) then FirstRefs(refs) else FirstRefs(refs)[r.name := r]
    ensures FirstClash(refs + [r]) ==
            match FirstClash(refs) case Some(e) => Some(e) case None => ClashWith(FirstRefs(refs), r)
  {
    assert (refs + [r])[..|refs|] == refs;
  }

  lemma {:induction false} RefsRemain(http: HttpConfig, i: nat, j: nat) returns (more: seq<Ref>)
    requires i < |http.servers| && j <= |http.servers[i].locations|
    ensures Refs(http) == RefsUpTo(http, i, j) + more
    decreases |http.servers| - i, |http.servers[i].locations| - j
  {
    if j < |http.servers[i].locations| {
      var more' := RefsRemain(http, i, j + 1);
      more := RefOf(http.servers[i].locations[j]) + more';
    } else if i + 1 < |http.servers| {
      more := RefsRemain(http, i + 1, 0);
      assert RefsUpTo(http, i + 1, 0) == ServerRefs(http.servers, i + 1);
    } else {
      more := [];
    }
  }

  lemma NoRefs(http: HttpConfig)
    ensures ServerRefs(http.servers, 0) == [] && FirstRefs([]) == map[] && FirstClash([]) == None
  {
  }

  lemma RefsUpToEnds(http: HttpConfig, i: nat)
    requires i < |http.servers|
    ensures RefsUpTo(http, i, 0) == ServerRefs(http.servers, i)
    ensures RefsUpTo(http, i, |http.servers[i].locations|) == ServerRefs(http.servers, i + 1)
  {
  }

  // ---- References and locations ----

  /** Server `i` has a location `j` that refers to upstream `name`. */
  ghost predicate RefersTo(http: HttpConfig, i: nat, j: nat, name: string) {
    && i < |http.servers| && j < |http.servers[i].locations|
    && http.servers[i].locations[j].action.Proxy?
    && http.servers[i].locations[j].action.pass.target == ToUpstream(name)
  }

  lemma RefIsListed(http: HttpConfig, i: nat, j: nat, name: string) returns (k: nat)
    requires RefersTo(http, i, j, name)
    ensures k < |Refs(http)| && [Refs(http)[k]] == RefOf(http.servers[i].locations[j])
  {
    var more := RefsRemain(http, i, j + 1);
    RefsUpToNext(http, i, j);
    k := |RefsUpTo(http, i, j)|;
  }

  /** A listed name is referred to by some location. */
  lemma ReferringLocation(http: HttpConfig, name: string) returns (i: nat, j: nat)
    requires name in FirstRefs(Refs(http))
    ensures RefersTo(http, i, j, name)
  {
    OnlyReferredNames(Refs(http));
    var k :| 0 <= k < |Refs(http)| && Refs(http)[k].name == name;
    i, j := OriginInServers(http, |http.servers|, k);
  }

  lemma {:induction false} OriginInServers(http: HttpConfig, n: nat, k: nat) returns (i: nat, j: nat)
    requires n <= |http.servers| && k < |ServerRefs(http.servers, n)|
    ensures RefersTo(http, i, j, ServerRefs(http.servers, n)[k].name)
    ensures RefOf(http.servers[i].locations[j]) == [ServerRefs(http.servers, n)[k]]
    decreases n
  {
    var before := ServerRefs(http.servers, n - 1);
    if k < |before| {
      i, j := OriginInServers(http, n - 1, k);
    } else {
      i := n - 1;
      j := OriginInLocations(http.servers[i].locations, |http.servers[i].locations|, k - |before|);
    }
  }

  lemma {:induction false} OriginInLocations(locations: seq<Location>, n: nat, k: nat) returns (j: nat)
    requires n <= |locations| && k < |LocationRefs(locations, n)|
    ensures j < n && RefOf(locations[j]) == [LocationRefs(locations, n)[k]]
    decreases n
  {
    if k < |LocationRefs(locations, n - 1)| {
      j := OriginInLocations(locations, n - 1, k);
    } else {
      j := n - 1;
    }
  }

  /** All `proxy_pass` locations that name the same upstream agree on scheme and certificate checks. */
  ghost predicate LocationsAgree(http: HttpConfig) {
    forall i: nat, j: nat, k: nat, l: nat, name | RefersTo(http, i, j, name) && RefersTo(http, k, l, name) ::
      && http.servers[i].locations[j].action.pass.scheme == http.servers[k].locations[l].action.pass.scheme
      && http.servers[i].locations[j].action.pass.sslVerify == http.servers[k].locations[l].action.pass.sslVerify
  }

  lemma RefsAgreeIffLocationsAgree(http: HttpConfig)
    ensures Agree(Refs(http)) <==> LocationsAgree(http)
  {
    hide FirstRefs, FirstClash, ServerRefs, LocationRefs, Refs;
    if Agree(Refs(http)) {
      forall i: nat, j: nat, k: nat, l: nat, name | RefersTo(http, i, j, name) && RefersTo(http, k, l, name)
        ensures http.servers[i].locations[j].action.pass.scheme == http.servers[k].locations[l].action.pass.scheme
        ensures http.servers[i].locations[j].action.pass.sslVerify == http.servers[k].locations[l].action.pass.sslVerify
      {
        var m := RefIsListed(http, i, j, name);
        var n := RefIsListed(http, k, l, name);
      }
    }
    if LocationsAgree(http) {
      var refs := Refs(http);
      forall m, n | 0 <= m < |refs| && 0 <= n < |refs| && refs[m].name == refs[n].name
        ensures refs[m].scheme == refs[n].scheme && refs[m].sslVerify == refs[n].sslVerify
      {
        var i, j := OriginOf(http, m);
        var k, l := OriginOf(http, n);
      }
    }
  }

  lemma OriginOf(http: HttpConfig, k: nat) returns (i: nat, j: nat)
    requires k < |Refs(http)|
    ensures RefersTo(http, i, j, Refs(http)[k].name)
    ensures RefOf(http.servers[i].locations[j]) == [Refs(http)[k]]
  {
    i, j := OriginInServers(http, |http.servers|, k);
  }

  // ---- The loops over servers and locations ----

  method ValidateUpstreamProxySchemes(http: HttpConfig) returns (r: Option<ConfigError>)
    ensures r == FirstClash(Refs(http))
    ensures r.None? <==> LocationsAgree(http)
  {
    NoClashIffAgree(Refs(http));
    RefsAgreeIffLocationsAgree(http);
    hide FirstClash, FirstRefs, ServerRefs, LocationRefs, LocationsAgree;
    var seen: map<string, Ref> := map[];
    NoRefs(http);
    for i := 0 to |http.servers|
      invariant seen == FirstRefs(ServerRefs(http.servers, i)) && FirstClash(ServerRefs(http.servers, i)).None?
    {
      var locations := http.servers[i].locations;
      RefsUpToEnds(http, i);
      for j := 0 to |locations|
        invariant seen == FirstRefs(RefsUpTo(http, i, j)) && FirstClash(RefsUpTo(http, i, j)).None?
      {
        RefsUpToNext(http, i, j);
        if locations[j].action.Proxy? && locations[j].action.pass.target.ToUpstream? {
          var pass := locations[j].action.pass;
          var cur := Ref(pass.target.name, pass.scheme, pass.sslVerify);
          OneMoreRef(RefsUpTo(http, i, j), cur);
          if cur.name in seen {
            var prev := seen[cur.name];
            ghost var more := RefsRemain(http, i, j + 1);
            if prev.scheme != cur.scheme {
              ClashStays(RefsUpTo(http, i, j + 1), more);
              return Some(MixedSchemes(cur.name));
            }
            if prev.sslVerify != cur.sslVerify {
              ClashStays(RefsUpTo(http, i, j + 1), more);
              return Some(MixedSslVerify(cur.name));
            }
          } else {
            seen := seen[cur.name := cur];
          }
        } else {
          assert RefsUpTo(http, i, j + 1) == RefsUpTo(http, i, j);
        }
      }
    }
    r := None;
  }

  method CollectProbeConfigs(http: HttpConfig) returns (out: map<string, Ref>)
    ensures out == FirstRefs(Refs(http))
  {
    hide FirstClash, FirstRefs, ServerRefs, LocationRefs;
    out := map[];
    NoRefs(http);
    for i := 0 to |http.servers|
      invariant out == FirstRefs(ServerRefs(http.servers, i))
    {
      var locations := http.servers[i].locations;
      RefsUpToEnds(http, i);
      for j := 0 to |locations|
        invariant out == FirstRefs(RefsUpTo(http, i, j))
      {
        RefsUpToNext(http, i, j);
        if locations[j].action.Proxy? && locations[j].action.pass.target.ToUpstream? {
          var pass := locations[j].action.pass;
          var cur := Ref(pass.target.name, pass.scheme, pass.sslVerify);
          OneMoreRef(RefsUpTo(http, i, j), cur);
          if cur.name !in out {
            out := out[cur.name := cur];
          }
        } else {
          assert RefsUpTo(http, i, j + 1) == RefsUpTo(http, i, j);
        }
      }
    }
  }

  // ---- Clients ----

  datatype Client = Verifying | Insecure

  function ClientFor(pass: ProxyPass): Client {
    if pass.scheme.Https? && !pass.sslVerify then Insecure else Verifying
  }

  function ClientForProbe(probe: Ref): Client {
    if probe.scheme.Https? && !probe.sslVerify then Insecure else Verifying
  }

  /** A client goes without certificate checks exactly for `https` with `proxy_ssl_verify off`. */
  predicate Fits(client: Client, pass: ProxyPass) {
    client == Insecure <==> pass.scheme == Https && !pass.sslVerify
  }

  /** When locations agree, an upstream is probed by the client that every location uses for it. */
  lemma ProbeUsesTheSameClient(http: HttpConfig, i: nat, j: nat, name: string)
    requires LocationsAgree(http) && RefersTo(http, i, j, name)
    ensures name in FirstRefs(Refs(http))
    ensures
      var pass, probe := http.servers[i].locations[j].action.pass, FirstRefs(Refs(http))[name];
      && ClientForProbe(probe) == ClientFor(pass) && probe.scheme == pass.scheme
      && Fits(ClientFor(pass), pass)
  {
    RefsAgreeIffLocationsAgree(http);
    var k := RefIsListed(http, i, j, name);
    var first := FirstRefsAreFirst(Refs(http), k);
  }
}
