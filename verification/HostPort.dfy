/** `host:port` texts: what is read from a CONNECT request's Host header and what is sent to upstreams. */
module HostPort {
  import opened Wrappers
  import opened Decimal
  import opened Addresses

  predicate IsBlank(c: char) {
    c == ' ' || c == '\t' || c == '\n' || c == '\r' || c as int == 11 || c as int == 12
  }

  function TrimLeft(s: string): string {
    if s != [] && IsBlank(s[0]) then TrimLeft(s[1..]) else s
  }

  function TrimRight(s: string): string {
    if s != [] && IsBlank(s[|s| - 1]) then TrimRight(s[..|s| - 1]) else s
  }

  function Trim(s: string): string {
    TrimRight(TrimLeft(s))
  }

  function FindLast(s: string, c: char): (k: Option<nat>)
    ensures k.Some? ==> k.value < |s| && s[k.value] == c && c !in s[k.value + 1..]
    ensures k.None? ==> c !in s
  {
    if s == [] then None
    else
      var n := |s| - 1;
      if s[n] == c then Some(n)
      else match FindLast(s[..n], c)
        case None => assert s == s[..n] + [s[n]]; None
        case Some(k) => assert s[k + 1..] == s[..n][k + 1..] + [s[n]]; Some(k)
  }

  /** `parse_host_port_header`. */
  function ParseHostPort(text: string): Option<(string, nat)> {
    var s := Trim(text);
    if s == [] then None
    else if s[0] == '[' then
      match Find(s, ']')
      case None => None
      case Some(end) =>
        var host := s[1..end];
        if |s| > end + 1 && s[end + 1] == ':' then
          match ParseUint(s[end + 2..], U16_MAX)
          case None => None
          case Some(port) => Some((host, port))
        else Some((host, 443))
    else
      match FindLast(s, ':')
      case None => Some((s, 443))
      case Some(k) =>
        var host := s[..k];
        match ParseUint(s[k + 1..], U16_MAX)
        case Some(port) => if host != [] && ':' !in host then Some((host, port)) else Some((s, 443))
        case None => Some((s, 443))
  }

  // ---- Reading back ----

  /** Blanks by their codes: tab, the three line separators, carriage return and blank. */
  predicate BlankChar(c: char) {
    9 <= c as int <= 13 || c as int == 32
  }

  predicate Blank(s: string) {
    forall i | 0 <= i < |s| :: BlankChar(s[i])
  }

  predicate Trimmed(s: string) {
    s != [] && !BlankChar(s[0]) && !BlankChar(s[|s| - 1])
  }

  lemma {:induction false} TrimLeftOf(l: string, s: string)
    requires Blank(l) && (s == [] || !BlankChar(s[0]))
    ensures TrimLeft(l + s) == s
  {
    if l == [] {
      assert l + s == s;
    } else {
      assert (l + s)[1..] == l[1..] + s;
      TrimLeftOf(l[1..], s);
    }
  }

  lemma {:induction false} TrimRightOf(s: string, r: string)
    requires Blank(r) && (s == [] || !BlankChar(s[|s| - 1]))
    ensures TrimRight(s + r) == s
  {
    if r == [] {
      assert s + r == s;
    } else {
      assert (s + r)[..|s + r| - 1] == s + r[..|r| - 1];
      TrimRightOf(s, r[..|r| - 1]);
    }
  }

  /** Blanks around a text are dropped, and nothing else. */
  lemma TrimAround(l: string, s: string, r: string)
    requires Blank(l) && Blank(r) && Trimmed(s)
    ensures Trim(l + s + r) == s
  {
    assert l + s + r == l + (s + r);
    TrimLeftOf(l, s + r);
    TrimRightOf(s, r);
  }

  lemma {:induction false} TrimmedLeft(s: string) returns (l: string)
    ensures Blank(l) && s == l + TrimLeft(s) && (TrimLeft(s) == [] || !BlankChar(TrimLeft(s)[0]))
  {
    l := [];
    if s != [] && IsBlank(s[0]) {
      var l' := TrimmedLeft(s[1..]);
      l := [s[0]] + l';
    }
  }

  lemma {:induction false} TrimmedRight(s: string) returns (r: string)
    ensures Blank(r) && s == TrimRight(s) + r && (TrimRight(s) == [] || !BlankChar(TrimRight(s)[|TrimRight(s)| - 1]))
    ensures TrimRight(s) == [] || TrimRight(s)[0] == s[0]
  {
    r := [];
    if s != [] && IsBlank(s[|s| - 1]) {
      var r' := TrimmedRight(s[..|s| - 1]);
      r := r' + [s[|s| - 1]];
    }
  }

  /** Every text is what trimming leaves, with blanks around it. */
  lemma TrimMeans(text: string) returns (l: string, r: string)
    ensures Blank(l) && Blank(r) && text == l + Trim(text) + r && (Trim(text) == [] || Trimmed(Trim(text)))
  {
    l := TrimmedLeft(text);
    r := TrimmedRight(TrimLeft(text));
    assert text == l + (Trim(text) + r);
  }

  lemma FindIs(s: string, c: char, k: nat)
    requires k < |s| && s[k] == c && c !in s[..k]
    ensures Find(s, c) == Some(k)
  {
  }

  lemma FindLastIs(s: string, c: char, k: nat)
    requires k < |s| && s[k] == c && c !in s[k + 1..]
    ensures FindLast(s, c) == Some(k)
  {
  }

  lemma DigitsAreNoPunctuation(n: nat)
    ensures ':' !in Digits(n) && Trimmed(Digits(n)) && ']' !in Digits(n)
  {
    DigitsDenote(n);
    assert IsDigit(Digits(n)[0]) && IsDigit(Digits(n)[|Digits(n)| - 1]);
  }

  /** A host name with a port: read back when the port fits 16 bits, else the whole text is the host. */
  lemma HostWithPort(l: string, host: string, n: nat, r: string)
    requires Blank(l) && Blank(r) && host != [] && !BlankChar(host[0]) && host[0] != '[' && ':' !in host
    ensures ParseHostPort(l + (host + ":" + Digits(n)) + r)
         == Some(if n <= U16_MAX then (host, n) else (host + ":" + Digits(n), 443))
  {
    var s := host + ":" + Digits(n);
    DigitsAreNoPunctuation(n);
    TrimAround(l, s, r);
    assert s[|host| + 1..] == Digits(n) && s[..|host|] == host;
    FindLastIs(s, ':', |host|);
    ParsePrinted(n, U16_MAX);
  }

  lemma HostWithoutPort(l: string, host: string, r: string)
    requires Blank(l) && Blank(r) && Trimmed(host) && host[0] != '[' && ':' !in host
    ensures ParseHostPort(l + host + r) == Some((host, 443))
  {
    TrimAround(l, host, r);
  }

  /** A bracketed host with a port: read back when the port fits 16 bits, else refused. */
  lemma BracketedWithPort(l: string, host: string, n: nat, r: string)
    requires Blank(l) && Blank(r) && ']' !in host
    ensures ParseHostPort(l + ("[" + host + "]:" + Digits(n)) + r) == if n <= U16_MAX then Some((host, n)) else None
  {
    var s := "[" + host + "]:" + Digits(n);
    var end := |host| + 1;
    DigitsAreNoPunctuation(n);
    assert s[|s| - 1] == Digits(n)[|Digits(n)| - 1];
    TrimAround(l, s, r);
    assert s[..end] == ['['] + host && s[1..end] == host && s[end + 2..] == Digits(n);
    FindIs(s, ']', end);
    ParsePrinted(n, U16_MAX);
  }

  lemma BracketedWithoutPort(l: string, host: string, r: string)
    requires Blank(l) && Blank(r) && ']' !in host
    ensures ParseHostPort(l + ("[" + host + "]") + r) == Some((host, 443))
  {
    var s := "[" + host + "]";
    var end := |host| + 1;
    TrimAround(l, s, r);
    assert s[..end] == ['['] + host && s[1..end] == host;
    FindIs(s, ']', end);
  }

  /** A text with two colons and no bracket is a host, with the default port. */
  lemma ManyColons(s: string, i: nat, j: nat)
    requires Trimmed(s) && s[0] != '[' && i < j < |s| && s[i] == s[j] == ':'
    ensures ParseHostPort(s) == Some((s, 443))
  {
    TrimAround([], s, []);
    assert [] + s + [] == s;
    var k := FindLast(s, ':').value;
    assert s[..k][i] == ':';
  }

  // ---- Exactly what is read ----

  /** A bracketed host, with what follows the bracket. */
  ghost predicate Bracketed(s: string, host: string, rest: string) {
    s == "[" + host + "]" + rest && ']' !in host
  }

  /** A host without colon and a port that fits 16 bits. */
  ghost predicate Plain(s: string, host: string, port: nat) {
    && s != [] && s[0] != '[' && host != [] && ':' !in host
    && exists digits :: s == host + ":" + digits && ParseUint(digits, U16_MAX) == Some(port)
  }

  ghost predicate Reads(s: string, host: string, port: nat) {
    || (exists digits :: Bracketed(s, host, ":" + digits) && ParseUint(digits, U16_MAX) == Some(port))
    || (port == 443 && exists rest :: Bracketed(s, host, rest) && (rest == [] || rest[0] != ':'))
    || Plain(s, host, port)
    || (s != [] && s[0] != '[' && host == s && port == 443 && forall h: string, p: nat :: !Plain(s, h, p))
  }

  lemma NumbersHaveNoColon(s: string, max: nat)
    requires ParseUint(s, max).Some?
    ensures ':' !in s
  {
    assert s[0] == '+' || IsDigit(s[0]);
    forall i | 0 <= i < |s| ensures s[i] != ':' {
      if i > 0 && s[0] == '+' {
        assert IsDigit(s[1..][i - 1]);
      }
    }
  }

  lemma BracketedParts(s: string, host: string, rest: string)
    requires Bracketed(s, host, rest)
    ensures Find(s, ']') == Some(|host| + 1) && s[1..|host| + 1] == host && s[|host| + 2..] == rest
  {
    assert s[..|host| + 1] == ['['] + host && s[|host| + 1] == ']' && s[|host| + 2..] == rest;
    FindIs(s, ']', |host| + 1);
  }

  lemma FoundBracket(s: string, end: nat)
    requires s != [] && s[0] == '[' && Find(s, ']') == Some(end)
    ensures end >= 1 && Bracketed(s, s[1..end], s[end + 1..])
  {
    assert s[..end] == ['['] + s[1..end];
    assert s == "[" + s[1..end] + "]" + s[end + 1..];
  }

  lemma ColonFirst(digits: string)
    ensures (":" + digits)[1..] == digits
  {
  }

  lemma BracketedReads(text: string, host: string, port: nat)
    requires Trim(text) != [] && Trim(text)[0] == '['
    ensures ParseHostPort(text) == Some((host, port)) <==> Reads(Trim(text), host, port)
  {
    hide Bracketed, ParseUint, Trim;
    var s := Trim(text);
    forall rest | Bracketed(s, host, rest) ensures Find(s, ']') == Some(|host| + 1) && s[|host| + 2..] == rest {
      BracketedParts(s, host, rest);
    }
    if Find(s, ']').Some? {
      var end := Find(s, ']').value;
      FoundBracket(s, end);
      var rest := s[end + 1..];
      forall digits ensures (":" + digits)[1..] == digits {
        ColonFirst(digits);
      }
      if rest != [] && rest[0] == ':' {
        assert rest == ":" + rest[1..] && rest[1..] == s[end + 2..];
      }
      assert Bracketed(s, host, rest) ==> host == s[1..end] by {
        if Bracketed(s, host, rest) {
          BracketedParts(s, host, rest);
        }
      }
    }
  }

  lemma PlainIsLastColon(s: string, host: string, port: nat)
    requires Plain(s, host, port)
    ensures FindLast(s, ':') == Some(|host|) && s[..|host|] == host && ParseUint(s[|host| + 1..], U16_MAX) == Some(port)
  {
    var digits :| s == host + ":" + digits && ParseUint(digits, U16_MAX) == Some(port);
    NumbersHaveNoColon(digits, U16_MAX);
    assert s[|host| + 1..] == digits && s[..|host|] == host;
    FindLastIs(s, ':', |host|);
  }

  lemma PlainIff(s: string, host: string, port: nat)
    requires s != [] && s[0] != '['
    ensures Plain(s, host, port) <==>
            FindLast(s, ':').Some? &&
            var k := FindLast(s, ':').value;
            host == s[..k] && host != [] && ':' !in host && ParseUint(s[k + 1..], U16_MAX) == Some(port)
  {
    hide ParseUint;
    if Plain(s, host, port) {
      PlainIsLastColon(s, host, port);
    } else if FindLast(s, ':').Some? {
      var k := FindLast(s, ':').value;
      assert s == s[..k] + ":" + s[k + 1..];
    }
  }

  lemma UnbracketedReads(text: string, host: string, port: nat)
    requires Trim(text) != [] && Trim(text)[0] != '['
    ensures ParseHostPort(text) == Some((host, port)) <==> Reads(Trim(text), host, port)
  {
    hide ParseUint, Plain;
    var s := Trim(text);
    forall h, rest ensures !Bracketed(s, h, rest) {
    }
    forall h: string, p: nat
      ensures Plain(s, h, p) <==>
              FindLast(s, ':').Some? &&
              var k := FindLast(s, ':').value;
              h == s[..k] && h != [] && ':' !in h && ParseUint(s[k + 1..], U16_MAX) == Some(p)
    {
      PlainIff(s, h, p);
    }
    if FindLast(s, ':').Some? {
      var k := FindLast(s, ':').value;
      var number := ParseUint(s[k + 1..], U16_MAX);
      assert number.Some? && s[..k] != [] && ':' !in s[..k] ==> Plain(s, s[..k], number.value);
    }
  }

  /** For every text: host and port are read exactly from these four forms, and else nothing is. */
  lemma ParseHostPortMeans(text: string, host: string, port: nat)
    ensures ParseHostPort(text) == Some((host, port)) <==> Reads(Trim(text), host, port)
  {
    hide ParseHostPort, Trim;
    if Trim(text) == [] {
      NothingToRead(text, host, port);
    } else if Trim(text)[0] == '[' {
      BracketedReads(text, host, port);
    } else {
      UnbracketedReads(text, host, port);
    }
  }

  lemma NothingToRead(text: string, host: string, port: nat)
    requires Trim(text) == []
    ensures ParseHostPort(text) == None && !Reads([], host, port)
  {
  }

  // ---- The Host header sent to an upstream ----

  function DefaultPort(scheme: ProxyScheme): nat {
    if scheme.Http? then 80 else 443
  }

  predicate IsIpChar(c: char) {
    IsDigit(c) || 'a' <= c <= 'f' || c == ':' || c == '.'
  }

  /** What is used of the text of an address: an IPv4 one has no colon, an IPv6 one at least two. */
  ghost predicate ValidIp(ip: Ip) {
    && ip.text != [] && (forall i | 0 <= i < |ip.text| :: IsIpChar(ip.text[i]))
    && (ip.V4? ==> ':' !in ip.text)
    && (ip.V6? ==> exists i, j :: 0 <= i < j < |ip.text| && ip.text[i] == ip.text[j] == ':')
  }

  function AddrText(addr: SocketAddr): string {
    (if addr.ip.V4? then addr.ip.text else "[" + addr.ip.text + "]") + ":" + Digits(addr.port)
  }

  /** `upstream_host`, and the authority of `build_upstream_uri`: the default port is left out. */
  function UpstreamHost(scheme: ProxyScheme, addr: SocketAddr): string {
    if addr.port == DefaultPort(scheme) then addr.ip.text else AddrText(addr)
  }

  /**
   * Host and port as section 3.2 of RFC 3986 separates them: an IPv6 address stands in
   * brackets, other hosts have no colon, and the port is digits or empty.
   */
  function ReadAuthority(s: string, defaultPort: nat): Option<SocketAddr> {
    if s != [] && s[0] == '[' then
      match Find(s, ']')
      case None => None
      case Some(end) => ReadPort(V6(s[1..end]), s[end + 1..], defaultPort)
    else
      match Find(s, ':')
      case None => Some(SocketAddr(V4(s), defaultPort))
      case Some(k) => ReadPort(V4(s[..k]), s[k..], defaultPort)
  }

  function ReadPort(ip: Ip, rest: string, defaultPort: nat): Option<SocketAddr> {
    if rest == [] || rest == ":" then Some(SocketAddr(ip, defaultPort))
    else if rest[0] != ':' || !AllDigits(rest[1..]) || Value(rest[1..]) > U16_MAX then None
    else Some(SocketAddr(ip, Value(rest[1..])))
  }

  lemma PortRead(ip: Ip, port: nat, defaultPort: nat)
    requires port <= U16_MAX
    ensures ReadPort(ip, ":" + Digits(port), defaultPort) == Some(SocketAddr(ip, port))
  {
    DigitsDenote(port);
    assert (":" + Digits(port))[1..] == Digits(port);
  }

  lemma AddrTextRead(addr: SocketAddr, defaultPort: nat)
    requires ValidIp(addr.ip) && addr.port <= U16_MAX
    ensures ReadAuthority(AddrText(addr), defaultPort) == Some(addr)
  {
    hide Digits, ReadPort;
    var s, t := AddrText(addr), addr.ip.text;
    PortRead(addr.ip, addr.port, defaultPort);
    assert IsIpChar(t[0]);
    if addr.ip.V4? {
      assert s[..|t|] == t && s[|t|..] == ":" + Digits(addr.port);
      FindIs(s, ':', |t|);
    } else {
      var end := |t| + 1;
      assert s[..end] == ['['] + t && s[1..end] == t && s[end + 1..] == ":" + Digits(addr.port);
      assert forall i | 0 <= i < |t| :: IsIpChar(t[i]) && t[i] != ']';
      FindIs(s, ']', end);
    }
  }

  /**
   * The text sent to an upstream is an authority that names its address, exactly when the
   * address is not an IPv6 one on the scheme's default port: then the brackets are missing.
   */
  lemma UpstreamHostIsAuthorityIff(scheme: ProxyScheme, addr: SocketAddr)
    requires ValidIp(addr.ip) && addr.port <= U16_MAX
    ensures ReadAuthority(UpstreamHost(scheme, addr), DefaultPort(scheme)) == Some(addr)
            <==> !(addr.ip.V6? && addr.port == DefaultPort(scheme))
  {
    AddrTextRead(addr, DefaultPort(scheme));
    assert IsIpChar(addr.ip.text[0]);
  }

  /**
   * The program's own reader recovers address and port from that text exactly when the port
   * was not left out for `http`: it takes 443 for every missing port.
   */
  lemma UpstreamHostParsesBackIff(scheme: ProxyScheme, addr: SocketAddr)
    requires ValidIp(addr.ip) && addr.port <= U16_MAX
    ensures ParseHostPort(UpstreamHost(scheme, addr)) == Some((addr.ip.text, addr.port))
            <==> !(scheme.Http? && addr.port == 80)
  {
    hide Digits, ParseHostPort;
    var t := addr.ip.text;
    assert IsIpChar(t[0]) && IsIpChar(t[|t| - 1]);
    assert forall i | 0 <= i < |t| :: IsIpChar(t[i]) && t[i] != ']';
    var s := UpstreamHost(scheme, addr);
    assert [] + s + [] == s;
    if addr.port == DefaultPort(scheme) {
      if addr.ip.V4? {
        HostWithoutPort([], t, []);
      } else {
        var i, j :| 0 <= i < j < |t| && t[i] == t[j] == ':';
        ManyColons(t, i, j);
      }
    } else if addr.ip.V4? {
      HostWithPort([], t, addr.port, []);
    } else {
      BracketedWithPort([], t, addr.port, []);
      assert "[" + t + "]" + ":" + Digits(addr.port) == "[" + t + "]:" + Digits(addr.port);
    }
  }
}
