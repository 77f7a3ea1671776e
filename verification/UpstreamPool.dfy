/** The pool as the program keeps it: peers and a counter updated in place, and the retry loop over them. */
module UpstreamPool {
  import opened Wrappers
  import opened Addresses
  import opened PoolSteps
  import opened Failover

  /** The millisecond clock: each reading is at least the one before and fits 64 bits. */
  class Clock {
    var now: nat

    method Now() returns (t: nat)
      requires now <= U64_MAX
      modifies this
      ensures old(now) <= now == t <= U64_MAX
    {
      var reading: int := *;
      if now <= reading <= U64_MAX {
        now := reading;
      }
      t := now;
    }
  }

  class Peer {
    const addr: SocketAddr
    var downUntilMs: nat

    constructor (addr: SocketAddr)
      ensures this.addr == addr && downUntilMs == 0
    {
      this.addr := addr;
      downUntilMs := 0;
    }

    method IsHealthy(clock: Clock) returns (healthy: bool)
      requires clock.now <= U64_MAX
      modifies clock
      ensures old(clock.now) <= clock.now <= U64_MAX
      ensures if healthy then Healthy(downUntilMs, clock.now) else !Healthy(downUntilMs, old(clock.now))
    {
      var until := downUntilMs;
      if until == 0 {
        return true;
      }
      var now := clock.Now();
      healthy := now >= until;
    }

    method MarkDown(clock: Clock) returns (logged: bool)
      requires clock.now <= U64_MAX
      modifies `downUntilMs, clock
      ensures old(clock.now) <= clock.now <= U64_MAX
      ensures LogsMark(Down, old(downUntilMs), old(clock.now), clock.now, logged)
      ensures downUntilMs == DownUntil(clock.now)
      ensures forall now: nat :: Healthy(downUntilMs, now) <==> TenSecondsOver(clock.now, now)
    {
      var wasUp := IsHealthy(clock);
      var now := clock.Now();
      downUntilMs := SaturatingAdd(now, FAIL_TIMEOUT_MS);
      logged := wasUp;
    }

    method MarkUp(clock: Clock) returns (logged: bool)
      requires clock.now <= U64_MAX
      modifies `downUntilMs, clock
      ensures old(clock.now) <= clock.now <= U64_MAX
      ensures LogsMark(Up, old(downUntilMs), old(clock.now), clock.now, logged)
      ensures downUntilMs == 0
    {
      var wasUp := IsHealthy(clock);
      downUntilMs := 0;
      logged := !wasUp;
    }
  }

  class UpstreamPool {
    const peers: seq<Peer>
    var next: nat
    ghost var events: seq<Event>

    ghost predicate Valid()
      reads this, peers
    {
      && next <= U64_MAX
      && forall i, j | 0 <= i < j < |peers| :: peers[i] != peers[j]
    }

    /** `peer_addrs`. */
    function PeerAddrs(): (addrs: seq<SocketAddr>)
      ensures |addrs| == |peers| && forall i | 0 <= i < |peers| :: addrs[i] == peers[i].addr
    {
      seq(|peers|, i requires 0 <= i < |peers| => peers[i].addr)
    }

    ghost function Untils(): (untils: seq<nat>)
      reads peers
      ensures |untils| == |peers| && forall i | 0 <= i < |peers| :: untils[i] == peers[i].downUntilMs
    {
      seq(|peers|, i requires 0 <= i < |peers| reads peers => peers[i].downUntilMs)
    }

    /** The pool as a value of PoolSteps. */
    ghost function Snapshot(clock: Clock): Pool
      reads this, peers, clock
    {
      Pool(PeerAddrs(), Untils(), next, clock.now, events)
    }

    constructor (servers: seq<SocketAddr>, clock: Clock)
      ensures Valid() && fresh(this) && fresh(peers)
      ensures Snapshot(clock) == NewPool(servers, clock.now)
    {
      var made: seq<Peer> := [];
      for k := 0 to |servers|
        invariant |made| == k && fresh(made)
        invariant forall i | 0 <= i < k :: made[i].addr == servers[i] && made[i].downUntilMs == 0
        invariant forall i, j | 0 <= i < j < k :: made[i] != made[j]
      {
        var peer := new Peer(servers[k]);
        made := made + [peer];
      }
      peers := made;
      next := 0;
      events := [];
    }

    method Pick(clock: Clock) returns (picked: Option<SocketAddr>, ghost slot: Option<nat>)
      requires Valid() && clock.now <= U64_MAX
      modifies `next, clock
      ensures Valid() && Picked(old(Snapshot(clock)), slot, Snapshot(clock))
      ensures slot.Some? ==> slot.value < |peers|
      ensures picked == match slot case Some(i) => Some(PeerAddrs()[i]) case None => None
    {
      hide Slot;
      var n := |peers|;
      slot := None;
      if n == 0 {
        return None, None;
      }
      var start := next;
      next := (next + 1) % (U64_MAX + 1);
      for off := 0 to n
        invariant next == (start + 1) % (U64_MAX + 1) && old(clock.now) <= clock.now <= U64_MAX
        invariant forall k | 0 <= k < off :: !Healthy(peers[Slot(start, k, n)].downUntilMs, old(clock.now))
      {
        var peer := peers[Slot(start, off, n)];
        var healthy := peer.IsHealthy(clock);
        if healthy {
          assert FoundAt(old(Snapshot(clock)), off, clock.now);
          return Some(peer.addr), Some(Slot(start, off, n));
        }
      }
      return None, None;
    }

    method FindPeer(addr: SocketAddr) returns (found: Option<nat>)
      ensures found == Find(PeerAddrs(), addr)
    {
      for i := 0 to |peers|
        invariant addr !in PeerAddrs()[..i]
      {
        if peers[i].addr == addr {
          return Some(i);
        }
      }
      return None;
    }

    method MarkDown(addr: SocketAddr, clock: Clock)
      requires Valid() && clock.now <= U64_MAX
      modifies this`events, peers, clock
      ensures Valid() && Marked(old(Snapshot(clock)), addr, Down, Snapshot(clock))
    {
      var found := FindPeer(addr);
      if found.Some? {
        var i := found.value;
        ghost var from := clock.now;
        var logged := peers[i].MarkDown(clock);
        events := events + [Event(i, Down, from, clock.now, logged)];
        assert Untils() == old(Untils())[i := DownUntil(clock.now)];
      }
    }

    method MarkUp(addr: SocketAddr, clock: Clock)
      requires Valid() && clock.now <= U64_MAX
      modifies this`events, peers, clock
      ensures Valid() && Marked(old(Snapshot(clock)), addr, Up, Snapshot(clock))
    {
      var found := FindPeer(addr);
      if found.Some? {
        var i := found.value;
        ghost var from := clock.now;
        var logged := peers[i].MarkUp(clock);
        events := events + [Event(i, Up, from, clock.now, logged)];
        assert Untils() == old(Untils())[i := 0];
      }
    }
  }

  /** Waiting for an upstream's answer, while any number of other requests and probes use the pool. */
  method Await(pool: UpstreamPool, clock: Clock)
    requires pool.Valid() && Consistent(pool.Snapshot(clock))
    modifies pool, pool.peers, clock
    ensures pool.Valid() && Consistent(pool.Snapshot(clock))
    ensures Extends(old(pool.Snapshot(clock)), pool.Snapshot(clock))
  {
    var steps: int := *;
    while steps > 0
      invariant pool.Valid() && Consistent(pool.Snapshot(clock))
      invariant Extends(old(pool.Snapshot(clock)), pool.Snapshot(clock))
    {
      ghost var before := pool.Snapshot(clock);
      var choice: int := *;
      var addr: SocketAddr := *;
      if choice == 0 {
        var _, _ := pool.Pick(clock);
      } else if choice == 1 {
        pool.MarkDown(addr, clock);
      } else if choice == 2 {
        pool.MarkUp(addr, clock);
      } else {
        var _ := clock.Now();
        assert Ticked(before, pool.Snapshot(clock));
      }
      StepConsistent(before, pool.Snapshot(clock));
      steps := steps - 1;
    }
  }

  /** The arms of the `match` on an upstream's answer: mark the peer, and end or go on. */
  method Settle(pool: UpstreamPool, clock: Clock, upstream: SocketAddr, ok: bool, ghost r: Request)
    requires pool.Valid() && Consistent(pool.Snapshot(clock)) && RequestOk(pool.Snapshot(clock), r)
    requires r.phase.Waiting? && r.tries[|r.tries| - 1].peer < |pool.peers|
    requires upstream == pool.PeerAddrs()[r.tries[|r.tries| - 1].peer]
    modifies pool, pool.peers, clock
    ensures pool.Valid() && Consistent(pool.Snapshot(clock))
    ensures Extends(old(pool.Snapshot(clock)), pool.Snapshot(clock))
    ensures RequestOk(pool.Snapshot(clock), Request(AfterAnswer(pool.Snapshot(clock), r, ok), r.tries))
    ensures Marked(old(pool.Snapshot(clock)), upstream, if ok then Up else Down, pool.Snapshot(clock))
  {
    hide Marked, LogRule, TimesOrdered, UntilAfter, Last, Expired, FailureMarked;
    ghost var p := pool.Snapshot(clock);
    if ok {
      pool.MarkUp(upstream, clock);
    } else {
      pool.MarkDown(upstream, clock);
    }
    ghost var q := pool.Snapshot(clock);
    AnsweredKeepsRequestOk(p, r, ok, q, Request(AfterAnswer(p, r, ok), r.tries));
  }

  /**
   * The last pick, from `p` to `q`, found no peer; if its rounds were safe, then a mark-down of
   * every peer with no later mark-up was less than ten seconds old.
   */
  ghost predicate FoundNone(p: Pool, q: Pool) {
    && |p.addrs| == |p.until| && Picked(p, None, q)
    && (0 < |p.addrs| <= U64_MAX && RoundsAreSafe(p.next, |p.addrs|) ==>
          forall i | 0 <= i < |q.addrs| :: !Expired(q.events, i, p.clock))
  }

  lemma PickFoundNone(p: Pool, q: Pool)
    requires Consistent(p) && Picked(p, None, q)
    ensures FoundNone(p, q)
  {
    hide Consistent, Slot, RoundsAreSafe;
    assert |p.addrs| == |p.until| by { ConsistentSizes(p); }
    if 0 < |p.addrs| <= U64_MAX && RoundsAreSafe(p.next, |p.addrs|) {
      NothingPickedMeansAllDown(p, q);
    }
  }

  lemma ConsistentSizes(p: Pool)
    requires Consistent(p)
    ensures |p.addrs| == |p.until|
  {
  }

  /** One round of the retry loop: the pool before the pick, after it, after the wait, and after the mark. */
  datatype Round = Round(before: Pool, picked: Pool, waited: Pool, settled: Pool)

  /** The round picked the peer of try `t`, waited, and marked that peer as it had answered. */
  ghost predicate RoundOk(r: Round, t: Try, ok: bool) {
    && |r.before.addrs| == |r.before.until| && |r.waited.addrs| == |r.waited.until| && t.peer < |r.before.addrs|
    && Picked(r.before, Some(t.peer), r.picked) && t.at == r.picked.clock && t.mark == |r.before.events|
    && Extends(r.picked, r.waited)
    && Marked(r.waited, r.before.addrs[t.peer], if ok then Up else Down, r.settled)
  }

  /** The first round starts from `first`, each later one where the round before it ended. */
  ghost predicate Chained(first: Pool, rounds: seq<Round>) {
    && (|rounds| > 0 ==> rounds[0].before == first)
    && forall i, j | 0 <= i < j == i + 1 < |rounds| :: rounds[j].before == rounds[i].settled
  }

  /** The rounds that make the tries `tries`, answered as `answers` says. */
  ghost predicate RoundsOk(first: Pool, rounds: seq<Round>, tries: seq<Try>, answers: seq<bool>) {
    && |rounds| == |tries| <= |answers| && Chained(first, rounds)
    && forall j | 0 <= j < |tries| :: RoundOk(rounds[j], tries[j], answers[j])
  }

  lemma RoundsGoOn(first: Pool, rounds: seq<Round>, tries: seq<Try>, answers: seq<bool>, r: Round, t: Try)
    requires RoundsOk(first, rounds, tries, answers) && |tries| < |answers|
    requires r.before == EndOf(first, rounds) && RoundOk(r, t, answers[|tries|])
    ensures RoundsOk(first, rounds + [r], tries + [t], answers) && EndOf(first, rounds + [r]) == r.settled
  {
    hide RoundOk;
    var all := rounds + [r];
    assert forall j | 0 <= j < |tries| :: all[j] == rounds[j] && (tries + [t])[j] == tries[j];
  }

  lemma ExtendsOn(p: Pool, q: Pool, r: Pool)
    requires Extends(p, q) && Extends(q, r)
    ensures Extends(p, r) && |p.events| <= |q.events|
  {
  }

  ghost function EndOf(first: Pool, rounds: seq<Round>): Pool {
    if |rounds| == 0 then first else rounds[|rounds| - 1].settled
  }

  lemma RoundGoes(r: Round, t: Try, ok: bool)
    requires |r.before.addrs| == |r.before.until| && |r.waited.addrs| == |r.waited.until| && t.peer < |r.before.addrs|
    requires Picked(r.before, Some(t.peer), r.picked) && t.at == r.picked.clock && t.mark == |r.before.events|
    requires Extends(r.picked, r.waited)
    requires Marked(r.waited, r.before.addrs[t.peer], if ok then Up else Down, r.settled)
    ensures RoundOk(r, t, ok)
  {
  }

  /** One attempt of the retry loop: a pick and, if it found a peer, the wait and the mark. */
  method Attempt(pool: UpstreamPool, clock: Clock, answer: bool, ghost tries: seq<Try>)
    returns (picked: Option<SocketAddr>, ghost t: Try, ghost round: Round)
    requires pool.Valid() && Consistent(pool.Snapshot(clock))
    requires RequestOk(pool.Snapshot(clock), Request(Ready, tries))
    modifies pool, pool.peers, clock
    ensures pool.Valid() && Consistent(pool.Snapshot(clock))
    ensures Extends(old(pool.Snapshot(clock)), pool.Snapshot(clock))
    ensures picked.None? ==>
              FoundNone(old(pool.Snapshot(clock)), pool.Snapshot(clock))
              && RequestOk(pool.Snapshot(clock), Request(Finished(NoHealthyPeers), tries))
    ensures picked.Some? ==>
              && RoundOk(round, t, answer)
              && round.before == old(pool.Snapshot(clock)) && round.settled == pool.Snapshot(clock)
              && t.peer < |pool.peers| && picked == Some(pool.PeerAddrs()[t.peer]) && t.mark == |old(pool.events)|
              && RequestOk(pool.Snapshot(clock),
                           Request(AfterAnswer(pool.Snapshot(clock), Request(Waiting, tries + [t]), answer), tries + [t]))
  {
    hide Picked, Marked, LogRule, TimesOrdered, UntilAfter, Last, RequestOk, FoundNone, RoundOk, Extends;
    t := Try(0, 0, 0);
    ghost var p := pool.Snapshot(clock);
    round := Round(p, p, p, p);
    ghost var slot;
    picked, slot := pool.Pick(clock);
    ghost var q := pool.Snapshot(clock);
    if picked.None? {
      TriesKeepsRequestOk(p, Request(Ready, tries), q, Request(Finished(NoHealthyPeers), tries));
      PickFoundNone(p, q);
      return;
    }
    t := Try(slot.value, q.clock, |p.events|);
    ghost var waiting := Request(Waiting, tries + [t]);
    TriesKeepsRequestOk(p, Request(Ready, tries), q, waiting);
    Await(pool, clock);
    ghost var w := pool.Snapshot(clock);
    OthersKeepRequestOk(q, waiting, w);
    ExtendsOn(p, q, w);
    Settle(pool, clock, picked.value, answer, waiting);
    ExtendsOn(p, w, pool.Snapshot(clock));
    round := Round(p, q, w, pool.Snapshot(clock));
    RoundGoes(round, t, answer);
  }

  /**
   * The retry loop of `proxy_upstream`, given what the upstream of each attempt would answer.
   * Its rounds follow each other without a gap, each marks its peer as that peer answered, the
   * first good answer ends it, and else it ends when no peer is found or no attempt is left.
   * The request it makes obeys RequestOk of module Failover, whatever happens while it waits.
   */
  method ProxyUpstream(pool: UpstreamPool, clock: Clock, answers: seq<bool>)
    returns (outcome: Outcome, upstream: Option<SocketAddr>, ghost tries: seq<Try>, ghost rounds: seq<Round>)
    requires pool.Valid() && Consistent(pool.Snapshot(clock))
    requires |answers| >= Attempts(pool.Snapshot(clock))
    modifies pool, pool.peers, clock
    ensures pool.Valid() && Consistent(pool.Snapshot(clock))
    ensures Extends(old(pool.Snapshot(clock)), pool.Snapshot(clock))
    ensures RequestOk(pool.Snapshot(clock), Request(Finished(outcome), tries))
    ensures forall t | t in tries :: t.mark >= |old(pool.events)| && t.peer < |pool.peers|
    ensures |tries| <= |answers| && RoundsOk(old(pool.Snapshot(clock)), rounds, tries, answers)
    ensures outcome == Served <==> tries != [] && answers[|tries| - 1]
    ensures forall j | 0 <= j < |tries| - 1 :: !answers[j]
    ensures outcome == Exhausted ==> |tries| == |pool.peers|
    ensures outcome != NoHealthyPeers ==> pool.Snapshot(clock) == EndOf(old(pool.Snapshot(clock)), rounds)
    ensures outcome == NoHealthyPeers ==>
              FoundNone(EndOf(old(pool.Snapshot(clock)), rounds), pool.Snapshot(clock))
    ensures upstream == if outcome == Served then Some(pool.PeerAddrs()[tries[|tries| - 1].peer]) else None
  {
    hide Consistent, RequestOk, FoundNone, RoundOk, Extends, Chained;
    tries, rounds := [], [];
    ghost var first := pool.Snapshot(clock);
    FreshRequestOk(first);
    Unextended(first);
    var attempts := if |pool.peers| == 0 then 1 else |pool.peers|;
    for attempt := 0 to attempts
      invariant pool.Valid() && Consistent(pool.Snapshot(clock)) && Extends(first, pool.Snapshot(clock))
      invariant |tries| == attempt
      invariant RequestOk(pool.Snapshot(clock), Request(if attempt == attempts then Finished(Exhausted) else Ready, tries))
      invariant forall t | t in tries :: t.mark >= |first.events| && t.peer < |pool.peers|
      invariant RoundsOk(first, rounds, tries, answers) && pool.Snapshot(clock) == EndOf(first, rounds)
      invariant forall j | 0 <= j < attempt :: !answers[j]
    {
      hide RoundsOk, EndOf;
      ghost var p := pool.Snapshot(clock);
      ghost var t, round;
      var picked;
      picked, t, round := Attempt(pool, clock, answers[attempt], tries);
      ExtendsOn(first, p, pool.Snapshot(clock));
      if picked.None? {
        return NoHealthyPeers, None, tries, rounds;
      }
      RoundsGoOn(first, rounds, tries, answers, round, t);
      tries, rounds := tries + [t], rounds + [round];
      if answers[attempt] {
        return Served, picked, tries, rounds;
      }
    }
    NoneLeft(pool.Snapshot(clock), tries);
    return Exhausted, None, tries, rounds;
  }

  lemma Unextended(p: Pool)
    ensures Extends(p, p) && Chained(p, [])
  {
  }

  lemma NoneLeft(p: Pool, tries: seq<Try>)
    requires RequestOk(p, Request(Finished(Exhausted), tries))
    ensures |tries| == |p.addrs|
  {
  }

  /** Event `d` is the mark that answered the probe of the peer with address `addr`. */
  ghost predicate ProbeMarked(p: Pool, addr: SocketAddr, ok: bool, d: nat) {
    d < |p.events| && Find(p.addrs, addr) == Some(p.events[d].peer) && p.events[d].mark == if ok then Up else Down
  }

  /** The probe's mark, as the last event of the pool. */
  method SettleProbe(pool: UpstreamPool, clock: Clock, addr: SocketAddr, ok: bool)
    requires pool.Valid() && Consistent(pool.Snapshot(clock)) && addr in pool.PeerAddrs()
    modifies pool, pool.peers, clock
    ensures pool.Valid() && Consistent(pool.Snapshot(clock))
    ensures Extends(old(pool.Snapshot(clock)), pool.Snapshot(clock))
    ensures |pool.events| == |old(pool.events)| + 1
    ensures ProbeMarked(pool.Snapshot(clock), addr, ok, |old(pool.events)|)
  {
    hide LogRule, TimesOrdered, UntilAfter, Last, LogsMark;
    ghost var p := pool.Snapshot(clock);
    if ok {
      pool.MarkUp(addr, clock);
    } else {
      pool.MarkDown(addr, clock);
    }
    MarkedConsistent(p, addr, if ok then Up else Down, pool.Snapshot(clock));
  }

  /** The probes of the first `|marks|` addresses were answered with `oks` and marked, in order, from event `from` on. */
  ghost predicate RoundMarked(p: Pool, addrs: seq<SocketAddr>, oks: seq<bool>, marks: seq<nat>, from: nat) {
    && |oks| == |marks| <= |addrs|
    && (forall i | 0 <= i < |marks| :: from <= marks[i] && ProbeMarked(p, addrs[i], oks[i], marks[i]))
    && forall i, j | 0 <= i < j < |marks| :: marks[i] < marks[j]
  }

  lemma RoundGoesOn(p: Pool, q: Pool, r: Pool, addrs: seq<SocketAddr>, oks: seq<bool>, marks: seq<nat>, from: nat, ok: bool)
    requires RoundMarked(p, addrs, oks, marks, from) && |marks| < |addrs|
    requires from <= |p.events| && Extends(p, q) && Extends(q, r)
    requires ProbeMarked(r, addrs[|marks|], ok, |q.events|)
    ensures RoundMarked(r, addrs, oks + [ok], marks + [|q.events|], from)
  {
    hide Find;
    forall i | 0 <= i < |marks| ensures marks[i] < |q.events| && ProbeMarked(r, addrs[i], oks[i], marks[i]) {
      assert ProbeMarked(p, addrs[i], oks[i], marks[i]);
    }
  }

  /**
   * One round of `probe_loop`, given what each peer's probe would answer: every peer address is probed and marked, in order, with
   * anything happening to the pool while an answer is awaited.
   */
  method ProbeRound(pool: UpstreamPool, clock: Clock, answers: seq<bool>) returns (ghost marks: seq<nat>)
    requires pool.Valid() && Consistent(pool.Snapshot(clock)) && |answers| == |pool.peers|
    modifies pool, pool.peers, clock
    ensures pool.Valid() && Consistent(pool.Snapshot(clock))
    ensures Extends(old(pool.Snapshot(clock)), pool.Snapshot(clock))
    ensures |marks| == |pool.peers|
    ensures RoundMarked(pool.Snapshot(clock), pool.PeerAddrs(), answers, marks, |old(pool.events)|)
  {
    hide Consistent, ProbeMarked;
    marks := [];
    ghost var first := pool.Snapshot(clock);
    var addrs := pool.PeerAddrs();
    for k := 0 to |addrs|
      invariant pool.Valid() && Consistent(pool.Snapshot(clock)) && Extends(first, pool.Snapshot(clock))
      invariant |marks| == k && RoundMarked(pool.Snapshot(clock), addrs, answers[..k], marks, |first.events|)
    {
      hide RoundMarked;
      ghost var p := pool.Snapshot(clock);
      Await(pool, clock);
      ghost var q := pool.Snapshot(clock);
      SettleProbe(pool, clock, addrs[k], answers[k]);
      RoundGoesOn(p, q, pool.Snapshot(clock), addrs, answers[..k], marks, |first.events|, answers[k]);
      assert answers[..k] + [answers[k]] == answers[..k + 1];
      marks := marks + [|q.events|];
    }
    assert answers[..|addrs|] == answers;
  }
}
