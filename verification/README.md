# qwewginx, modelled and proved in Dafny

qwewginx is a small proxy and web server in the manner of nginx. This project models the
parts of it that decide something and proves what they promise. `dafny verify dfyconfig.toml`
checks everything.

- **Upstream pools** (`PoolSteps`, `Failover`, `Shares`, `RequestShares`, `UpstreamPool`). A pool
  is a step system: picks by round robin, peers marked down for ten seconds or up again, and a
  clock that never goes back. `pick` and `mark_*` contain no await, so each is one step; the clock
  readings inside a step lie anywhere between the clock before and after it. Requests, the
  health probe and the clock interleave freely; what upstreams answer is an input and may be
  anything. The history of marks is kept beside the timers and everything is proved about it: a
  peer's health is a function of its history, records alternate as they should, a request is
  bounded, never tries a failed peer again before its time, and divides its picks exactly.
  `UpstreamPool` holds the same as objects updated in place, with the retry loop as a loop.
- **Calendar** (`Calendar`, `LogTime`). The division-only conversion of Unix seconds against a
  calendar advanced one day at a time, over all second counts, and the log stamp with a reader
  that recovers the second.
- **Configuration language** (`Grammar`, `OnePass`, `Rendering`, `RoundTrip`, `Values`). The
  parsing expression grammar with its backtracking and implicit layout, a one-pass parser that
  computes the same, and the exact language: a text is accepted if and only if it is the text
  of a well-formed document, with exactly that document's tree.
- **Configuration builder** (`Config`, `LocationBlock`, `LocationMeaning`, `UpstreamBlock`,
  `ServerBlock`, `Schemes`, `ConfigFile`, `FileMeaning`, `Startup`). Each block parser is a
  method with the source's loop, equal to a function of the statements, and that function is
  proved to accept and to mean what is said without any order of evaluation. Accepted
  configurations have what the server takes for granted.
- **Routing and static files** (`Routing`, `StaticFiles`). Prefix tests on bytes are segment-wise
  longest prefix matching, followed from a request's path to the path of a file.
- **`host:port` texts** (`HostPort`, `Decimal`). What is read, exactly, and what is sent.

Hypotheses and representation:

- The clock is monotone (the program reads `SystemTime`, which does not promise that) and fits
  64 bits. A timer that would pass 2^64 saturates, as in the program; no bound on the clock is
  assumed.
- The pick counter wraps at 2^64, and the sum with the round number is taken modulo 2^64, as in
  an optimised build for a 64-bit `usize`, the only one modelled (with 32 bits it wraps at 2^32);
  a build with overflow checks stops there instead. The same holds for the year `u32` in the
  calendar, in its last two months.
- Failover needs distinct peer addresses, which the builder does not check:
  `Failover.NeverRetriesIffDistinct` shows that it holds if and only if they are.
- `SocketAddr` parsing is a parameter `addrOf`; an address is the text of its IP and a port.
- Strings in `Routing` and `StaticFiles` are byte strings, written as characters; those of the
  configuration are Unicode characters. `Startup` hands the one to the other, which is right
  for the UTF-8 bytes of a configured path. Paths of the file system are sequences of components.
- Errors of the builder are kinds with the names they mention, not message texts.

Where the code is not what it looks like, the code is kept and the exact condition proved: the
calendar year is right if and only if it fits 32 bits (`Calendar.ExactIffBelowLimit`); a pick
looks at every peer if and only if its counter does not wrap within it or wraps harmlessly
(`PoolSteps.AllVisitedIffSafe`); the text sent as Host is an authority of RFC 3986 if and only
if the upstream is not an IPv6 address on the scheme's default port
(`HostPort.UpstreamHostIsAuthorityIff`).

## Model

| member | source | states |
|---|---|---|
| Calendar.UnixToUtcIsCalendar | qwewginx-core/src/server/access_log.rs:141-163 | for every second count, month, day and time of day are those of the day-by-day Gregorian calendar, and the year is its year modulo 2^32 |
| Calendar.MarchDateInvertsDayNumber | qwewginx-core/src/server/access_log.rs:148-160 | era, year of era, day of year and month divisions undo the count of days on every valid date |
| Calendar.YearOfEra | qwewginx-core/src/server/access_log.rs:150-151 | the division by 365 with its three corrections finds the year on every day of every year of an era |
| Calendar.DateAfterIsValid | qwewginx-core/src/server/access_log.rs:141-163 | n successor days after 1970-01-01 make a valid date whose day number is n more |
| Calendar.ExactIffBelowLimit | qwewginx-core/src/server/access_log.rs:152 | the date is the calendar's if and only if the second lies before the year 2^32 |
| Calendar.SecsOfUnixToUtc | qwewginx-core/src/server/access_log.rs:141-163 | the result is a valid date and time from 1970 on that counting seconds turns back, if and only if the second lies below the limit |
| Calendar.UnixToUtcOfSecsOf | qwewginx-core/src/server/access_log.rs:141-163 | every valid date and time from 1970 to the limit is produced, by its own second |
| Calendar.UnixToUtcIncreases | qwewginx-core/src/server/access_log.rs:141-163 | later seconds have later dates and times |
| Calendar.UnixToUtcRepeats | qwewginx-core/src/server/access_log.rs:152 | beyond the limit, within 64 bits, a second repeats the date and time of second 0 |
| LogTime.MonthInRange | qwewginx-core/src/server/access_log.rs:137 | the month index of the log stamp is in range for every second count |
| LogTime.StampText | qwewginx-core/src/server/access_log.rs:126-139 | the text of a stamp in full: day, month name and year of the calendar, hour, minute and second |
| LogTime.ReadPrintedLogTime | qwewginx-core/src/server/access_log.rs:126-139 | a reader of stamps recovers the second a stamp was printed for, if and only if it lies below the limit |
| LogTime.EqualStampsIff | qwewginx-core/src/server/access_log.rs:126-139 | two seconds have the same stamp if and only if time of day, month and day are the same and the years agree modulo 2^32; below the limit, if and only if they are equal |
| LogTime.FormatLogTimeRepeats | qwewginx-core/src/server/access_log.rs:126-139 | beyond the limit two different seconds print alike |
| PoolSteps.RunConsistent | qwewginx-core/src/server/proxy.rs:64-157 | in every state of every run the timers are what the history of marks says, and each mark was recorded exactly when health changed |
| PoolSteps.HealthIsHistory | qwewginx-core/src/server/proxy.rs:77-107 | a peer is eligible if and only if every mark-down since its last mark-up is at least ten seconds old |
| PoolSteps.HealthInNumbers | qwewginx-core/src/server/proxy.rs:30 | a peer last marked down at a time is healthy again exactly 10000 ms later, or at the last reading of a 64-bit clock; one last marked up is healthy |
| PoolSteps.RecordsTellHealth | qwewginx-core/src/server/proxy.rs:82-107 | a mark is recorded if and only if it met the peer in the other state, judged by its history within the call |
| PoolSteps.UpRecordsAreSeparated | qwewginx-core/src/server/proxy.rs:82-107 | a peer's records never begin with "up" and never have two "up" without a "down" between |
| PoolSteps.DownRecordsAreApart | qwewginx-core/src/server/proxy.rs:82-107 | two "down" records of a peer without an "up" between are ten seconds apart, whatever went unrecorded |
| PoolSteps.PickedIsHealthy | qwewginx-core/src/server/proxy.rs:123-136 | the picked peer is healthy, by its history, when the pick ends |
| PoolSteps.NothingPickedMeansAllDown | qwewginx-core/src/server/proxy.rs:123-136 | a pick that finds nothing, in safe rounds, has found every peer down |
| PoolSteps.AllVisitedIffSafe | qwewginx-core/src/server/proxy.rs:128-130 | a pick looks at every peer if and only if the counter does not pass 2^64 in it or the number of peers divides 2^64 |
| Failover.RunKeepsOk | qwewginx-core/src/server/proxy.rs:388-436 | every reachable state of any number of interleaved requests, probes and clock steps keeps timers, history and each request as described by RequestOk |
| Failover.RankFalls | qwewginx-core/src/server/proxy.rs:388-389 | every step of a request lowers a rank that no other step changes |
| Failover.RequestsAreBounded | qwewginx-core/src/server/proxy.rs:388-428 | under any interference a request takes at most two steps per peer and tries only peers healthy at their pick |
| Failover.KeepsFailingIsLeftAlone | qwewginx-core/src/server/health_probe.rs:81-98 | in every run, a peer that keeps being marked down less than ten seconds apart, and not up, is not tried by any request from the first failure on |
| Failover.RetryNeedsRecovery | qwewginx-core/src/server/proxy.rs:400-427 | a request tries a peer again only after a mark-up of that peer, by others, or ten seconds after its failure |
| Failover.UndisturbedTriesDiffer | qwewginx-core/src/server/proxy.rs:389-428 | unless a tried peer is marked up, no peer is tried twice within ten seconds of the request's first failure, whatever other requests do |
| Failover.ExhaustedTriedEveryPeer | qwewginx-core/src/server/proxy.rs:429-436 | falling out of the loop then means that every peer was tried, just once, and failed |
| Failover.NoHealthyPeersMeansAllDown | qwewginx-core/src/server/proxy.rs:390-399 | "no healthy upstream peers" means that for every peer a mark-down without later mark-up is under ten seconds old |
| Failover.NeverRetriesIffDistinct | qwewginx-core/src/server/proxy.rs:138-142 | undisturbed requests never try an address twice in any run if and only if the pool's addresses are distinct |
| Shares.SharesAreExact | qwewginx-core/src/server/proxy.rs:123-136 | in n consecutive picks a healthy peer is chosen once plus once per down peer right before it, a down peer never |
| Shares.SharesAddUp | qwewginx-core/src/server/proxy.rs:123-136 | the shares of all peers add up to the number of picks |
| Shares.AllUpIsFair | qwewginx-core/src/server/proxy.rs:123-136 | with all peers healthy any window of picks is divided as evenly as it can be |
| Shares.PicksAreSharedExactly | qwewginx-core/src/server/proxy.rs:123-148 | the same shares for the picks of a pool among any marks and readings of the clock, while the picks meet the same healthy peers |
| Shares.EveryPeerIsChosenIffSafe | qwewginx-core/src/server/proxy.rs:128-130 | with all n peers healthy, n picks choose every peer if and only if the counter does not pass 2^64 within them or n divides 2^64 |
| RequestShares.RequestsShareExactly | qwewginx-core/src/server/proxy.rs:388-428 | the same shares in every run of interleaved requests, probes and clock steps |
| UpstreamPool.Peer.IsHealthy | qwewginx-core/src/server/proxy.rs:77-80 | healthy means at the end of the call, not healthy means at its start |
| UpstreamPool.Peer.MarkDown | qwewginx-core/src/server/proxy.rs:82-94 | sets the timer to ten seconds after the last reading, saturating, and logs if and only if health was read as up |
| UpstreamPool.Peer.MarkUp | qwewginx-core/src/server/proxy.rs:96-107 | clears the timer and logs if and only if health was read as down |
| UpstreamPool.UpstreamPool.constructor | qwewginx-core/src/server/proxy.rs:116-121 | a new pool has all peers up and the counter at zero |
| UpstreamPool.UpstreamPool.Pick | qwewginx-core/src/server/proxy.rs:123-136 | is a pick step of the step system and changes only counter and clock |
| UpstreamPool.UpstreamPool.MarkDown | qwewginx-core/src/server/proxy.rs:138-142 | is a mark-down step on the first peer with the address |
| UpstreamPool.UpstreamPool.MarkUp | qwewginx-core/src/server/proxy.rs:144-148 | is a mark-up step on the first peer with the address |
| UpstreamPool.ProxyUpstream | qwewginx-core/src/server/proxy.rs:388-436 | the retry loop, with any use of the pool by others during each wait, consists of gapless rounds of pick, wait and mark, each marking its peer as that peer answered; it serves if and only if the last answer was good, stops at the first good one, else tries on until attempts or peers run out; giving up without a peer means, in safe rounds, that every peer was down |
| UpstreamPool.ProbeRound | qwewginx-core/src/server/health_probe.rs:81-98 | a round of the probe loop marks the peer of every address in order, up or down as its probe answers, with any use of the pool by others during each wait |
| Grammar.SkipStops | qwewginx-core/src/nginx.pest:1-2 | after layout comes neither white space nor a comment, and skipping twice is skipping once |
| OnePass.FileAgrees | qwewginx-core/src/nginx.pest:4-9 | the backtracking choice of directive or block gives the same result as reading the head once and deciding on the next character, for every text |
| RoundTrip.DocParses | qwewginx-core/src/nginx.pest:4-16 | a document with any layout, printed before any text, is parsed as its tree and the text is left |
| RoundTrip.DocOf | qwewginx-core/src/nginx.pest:4-16 | whatever is parsed as a statement is the text of a document with that tree |
| RoundTrip.FileAcceptsExactly | qwewginx-core/src/nginx.pest:1-16 | the grammar accepts exactly the texts of documents, each with exactly its trees |
| Rendering.CharactersAgree | qwewginx-core/src/nginx.pest:1-16 | the parser's classes of characters are those of documents, which are given by code points |
| Values.UnescapeStr | qwewginx-core/src/config/parser.rs:714-736 | the loop computes Unescape |
| Values.UnescapeEscape | qwewginx-core/src/config/parser.rs:714-736 | every quote-free value has a quote-free escaped form that is read back as it |
| Values.OtherBackslashesStay | qwewginx-core/src/config/parser.rs:725-729 | a backslash that starts no escape, also at the end, stays |
| Values.StringsExpressQuoteFree | qwewginx-core/src/nginx.pest:12-13 | strings express exactly the values without a double quote |
| Values.WrittenTextParses | qwewginx-core/src/config/parser.rs:676-736 | every text that writes a tree of values, with any layout and each value bare or as a string, is parsed as that tree |
| Values.PrintedNodesParse | qwewginx-core/src/config/parser.rs:676-736 | printing a tree of values, each value bare if it can be, and parsing the text gives the tree back |
| Values.TextsExpressExactly | qwewginx-core/src/config/parser.rs:676-736 | the trees of values that texts express are exactly those with identifiers for names and quote-free values |
| Config.ProxyPassUrlMeans | qwewginx-core/src/config/parser.rs:613-642 | which URLs a proxy_pass accepts, and what each then is |
| Config.ListenAddrMeans | qwewginx-core/src/config/parser.rs:665-674 | an address is the text, or for one that starts with a colon the text on 127.0.0.1 |
| Config.OneU32Means | qwewginx-core/src/config/parser.rs:738-744 | the first argument denotes a number up to 4294967295 |
| Config.BoolArgMeans | qwewginx-core/src/config/parser.rs:395-402 | the first argument is "true" or "false" |
| Config.AccessLogArgsMean | qwewginx-core/src/config/parser.rs:292-307 | the only argument is "off" or a path |
| LocationBlock.ParseLocationBlock | qwewginx-core/src/config/parser.rs:496-611 | the loop with its five accumulators computes LocationOf, errors included |
| LocationMeaning.LocationMeans | qwewginx-core/src/config/parser.rs:496-611 | a block is accepted if and only if it has exactly one action and only companions of it; read from the texts of the arguments: status, body, URL and root are the action's own, ssl_verify is false if and only if the last proxy_ssl_verify says off, wherever it stands, and the index is all names given |
| LocationMeaning.NeverConflicting | qwewginx-core/src/config/parser.rs:604-608 | the error for conflicting directives never comes up |
| UpstreamBlock.ApplyHealthCheck | qwewginx-core/src/config/parser.rs:352-393 | the index loop over options computes HealthArgs, errors included |
| UpstreamBlock.HealthArgsConcat | qwewginx-core/src/config/parser.rs:331-333 | successive health_check directives are one with the arguments of both |
| UpstreamBlock.HealthArgsMean | qwewginx-core/src/config/parser.rs:352-393 | options are accepted if and only if each name has a good value, and of each name the last value counts |
| UpstreamBlock.IntervalMeans | qwewginx-core/src/config/parser.rs:365-374 | an interval denotes a positive number up to 4294967295 |
| UpstreamBlock.ServerAddrMeans | qwewginx-core/src/config/parser.rs:320-330 | a server's first argument is its address |
| UpstreamBlock.ParseUpstreamBlock | qwewginx-core/src/config/parser.rs:309-350 | the loop computes UpstreamOf, errors included |
| UpstreamBlock.UpstreamMeans | qwewginx-core/src/config/parser.rs:309-350 | when an upstream is accepted, and that it has all its servers in order and a health check that is the last interval, or 5 seconds, and the last path, or "/" |
| ServerBlock.ParseListenArgs | qwewginx-core/src/config/parser.rs:644-663 | one address among the arguments, and ssl anywhere |
| ServerBlock.ListenMeans | qwewginx-core/src/config/parser.rs:644-663 | listen is accepted if and only if just one argument is not ssl and is an address; it is ssl if and only if ssl is among the arguments |
| ServerBlock.ParseServerBlock | qwewginx-core/src/config/parser.rs:404-494 | the loop computes ServerOf, errors included |
| ServerBlock.AcceptedServerIsReady | qwewginx-core/src/config/parser.rs:461-485 | an accepted server has listeners, TLS files if one is ssl, no locations if it is a forward proxy, and an index in every static location |
| FileMeaning.ServerMeans | qwewginx-core/src/config/parser.rs:404-494 | a server is accepted if and only if its statements are good and complete together; of a repeated setting the last counts |
| FileMeaning.HttpMeans | qwewginx-core/src/config/parser.rs:237-290 | an http block is accepted if and only if its statements are good and upstream names distinct |
| FileMeaning.ConfigMeans | qwewginx-core/src/config/parser.rs:19-78 | a text is accepted if and only if it parses, its statements are good, there is a server and references agree; it means what its last blocks say |
| Schemes.ValidateUpstreamProxySchemes | qwewginx-core/src/config/parser.rs:157-190 | the nested loops find the first clash, and none if and only if all locations that name the same upstream agree on scheme and certificate checks |
| Schemes.NoClashIffAgree | qwewginx-core/src/config/parser.rs:173-186 | comparing with the first reference only is comparing all pairs |
| Schemes.RefsAgreeIffLocationsAgree | qwewginx-core/src/config/parser.rs:162-172 | the references collected agree if and only if the locations do |
| Schemes.CollectProbeConfigs | qwewginx-core/src/server/health_probe.rs:20-37 | the nested loops keep for each upstream its first reference |
| Schemes.ProbeUsesTheSameClient | qwewginx-core/src/server/proxy.rs:204-218 | when locations agree, the client of a probe is the client of every location that names the upstream, without certificate checks if and only if that is https with ssl_verify off |
| FileMeaning.EventsMean | qwewginx-core/src/config/parser.rs:212-235 | an events block is accepted if and only if its directives are worker_connections with a number that fits; the last counts, 1024 if there is none, and blocks are passed over |
| FileMeaning.StreamServerMeans | qwewginx-core/src/config/parser.rs:107-149 | a stream server is accepted if and only if its directives are listen and proxy_pass with readable addresses, both given; of each the last counts, and blocks are passed over |
| FileMeaning.StreamMeans | qwewginx-core/src/config/parser.rs:80-105 | a stream block is accepted if and only if it is one or more good servers, which it has in order |
| ConfigFile.ParseEventsBlock | qwewginx-core/src/config/parser.rs:212-235 | the loop computes EventsAfter, errors included; EventsMean says what that is |
| ConfigFile.ParseStreamServerBlock | qwewginx-core/src/config/parser.rs:107-149 | the loop computes StreamServerOf, errors included; StreamServerMeans says what that is |
| ConfigFile.ParseStreamBlock | qwewginx-core/src/config/parser.rs:80-105 | the loop computes StreamOf, errors included; StreamMeans says what that is |
| ConfigFile.ParseHttpBlock | qwewginx-core/src/config/parser.rs:237-290 | the loop computes HttpAfter, errors included |
| ConfigFile.ParseStr | qwewginx-core/src/config/parser.rs:19-78 | computes ConfigOf, and an accepted configuration is ready to be served |
| ConfigFile.AcceptedConfigIsReady | qwewginx-core/src/server/mod.rs:86-88 | every accepted text gives a configuration with a listener, distinct upstreams with servers, TLS files for ssl listeners, served locations and agreeing references |
| Startup.NewPools | qwewginx-core/src/server/proxy.rs:187-202 | the loop inserts a pool for each upstream with servers |
| Startup.PoolsAreUpstreams | qwewginx-core/src/server/proxy.rs:187-202 | after an accepted configuration the pools are the upstreams, each with its own servers |
| Startup.Spawn | qwewginx-core/src/server/health_probe.rs:39-70 | the loop with its three skips starts the probes of ProbesOf, in order |
| Startup.ProbesOfAreProbes | qwewginx-core/src/server/health_probe.rs:39-70 | a probe is started if and only if it is the probe of some upstream |
| Startup.ProbeExactly | qwewginx-core/src/server/health_probe.rs:39-70 | an upstream is probed if and only if it has a health check and some location names it, with the client of every such location |
| Startup.DispatchFollowsBest | qwewginx-core/src/server/mod.rs:206-249 | the route is that of the best location: its status (500 if not of three digits) and body; its address or pool with its scheme and the client that fits; or its root and index with the path after its own |
| Startup.DispatchOfAccepted | qwewginx-core/src/server/mod.rs:186-250 | a request for a declared upstream goes to its servers, for an undeclared one it is refused; "not found" if and only if nothing matches; static locations have a relative path and an index |
| Routing.MatchesIffSegmentPrefix | qwewginx-core/src/server/mod.rs:252-260 | a location matches if and only if its segments are the first segments of the path, except that "/" does not match the empty path |
| Routing.MatchLocationIsBest | qwewginx-core/src/server/mod.rs:262-267 | the chosen location matches, is longest and among duplicates last; none is chosen if and only if none matches |
| Routing.EqualLengthMatchesAgree | qwewginx-core/src/server/mod.rs:266 | equally long matches of one path are the same path |
| Routing.OrderDoesNotMatter | qwewginx-core/src/server/mod.rs:262-267 | permuting the locations does not change the chosen path |
| StaticFiles.SafeJoin | qwewginx-core/src/server/static_files.rs:99-113 | refused if and only if a segment is "..", else the root followed by the named segments |
| StaticFiles.FileOfRequest | qwewginx-core/src/server/static_files.rs:83-113 | from the path of a request, through its location, to the path of a file: the segments after the location's own |
| StaticFiles.JoinedStaysBelow | qwewginx-core/src/server/static_files.rs:99-113 | a joined path continues the root with plain names only |
| StaticFiles.JoinedKeepsNames | qwewginx-core/src/server/static_files.rs:105-111 | every named segment stands in the joined path after the root, in order, and nothing else |
| Decimal.ParseUintMeans | qwewginx-core/src/config/parser.rs:738-744 | a number is read from exactly its decimal text, with zeros and one plus sign allowed before it, when it fits |
| HostPort.ParseHostPortMeans | qwewginx-core/src/server/proxy.rs:268-291 | for every text, exactly which host and port are read |
| HostPort.TrimMeans | qwewginx-core/src/server/proxy.rs:268-272 | the text read is the trimmed one: blanks around it are left out, and nothing else |
| HostPort.HostWithPort | qwewginx-core/src/server/proxy.rs:283-290 | a name with a port that fits is read back, with one that does not the whole text is the host |
| HostPort.HostWithoutPort | qwewginx-core/src/server/proxy.rs:283-290 | a name without port gets port 443 |
| HostPort.BracketedWithoutPort | qwewginx-core/src/server/proxy.rs:273-282 | a bracketed host without port gets port 443 |
| HostPort.BracketedWithPort | qwewginx-core/src/server/proxy.rs:273-282 | a bracketed host with a port that fits is read back, with one that does not it is refused |
| HostPort.UpstreamHostIsAuthorityIff | qwewginx-core/src/server/proxy.rs:314-319 | the Host text names the address, separated into host and port as in section 3.2 of RFC 3986, if and only if the address is not IPv6 on the default port |
| HostPort.UpstreamHostParsesBackIff | qwewginx-core/src/server/proxy.rs:268-319 | the reader of Host headers, which the program does not apply to this text, would recover address and port if and only if port 80 was not left out for http |

## Left out

- Sockets, TLS, TCP relay, CONNECT tunnels, DNS, worker processes: library calls without local decisions.
- Building and copying of HTTP messages, `buffer_request`, `Uri` parsing: the outcome of forwarding a request is arbitrary in the model.
- The file system part of `resolve_file`, content types, fixed bodies.
- The rest of the combined log line, and the log file.
- `std::net::SocketAddr` parsing (a parameter), IPv6 scope identifiers in its printing.
- Stack depth: the grammar's recursion is unbounded here.
- Windows paths and symbolic links.
- `peer_failure_status`, `hop_by_hop`, `client_for_scheme`, `parse_connect_target` and the like: table lookups.
- Unicode white space in `trim`: header values that reach it are visible ASCII, blanks and tabs.
- UpstreamPool.Peer.IsHealthy: does not say which reading of the clock was taken, because the program does not promise one; it lies within the call.
