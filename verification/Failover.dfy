/**
 * The retry loop of `proxy_upstream` for any number of requests at once, interleaved with each
 * other, with the health probe of the pool and with the clock. Awaiting an upstream's answer
 * is where other steps come between; the answer itself may be anything.
 */
module Failover {
  import opened Wrappers
  import opened Addresses
  import opened Arithmetic
  import opened PoolSteps

  /** A peer tried: which, when, and how long the history of marks was. */
  datatype Try = Try(peer: nat, at: nat, mark: nat)

  datatype Outcome = Served | NoHealthyPeers | Exhausted

  datatype Phase = Ready | Waiting | Finished(outcome: Outcome)

  datatype Request = Request(phase: Phase, tries: seq<Try>)

  /** `attempts` of the retry loop. */
  function Attempts(p: Pool): nat {
    if |p.addrs| == 0 then 1 else |p.addrs|
  }

  // ---- One request ----

  ghost predicate Tries(p: Pool, r: Request, q: Pool, s: Request)
    requires |p.addrs| == |p.until|
  {
    && r.phase.Ready?
    && if s.phase == Finished(NoHealthyPeers)
       then Picked(p, None, q) && s.tries == r.tries
       else
         && s.phase == Waiting && |s.tries| == |r.tries| + 1
         && var t := s.tries[|r.tries|];
         && s.tries == r.tries + [Try(t.peer, q.clock, |p.events|)]
         && Picked(p, Some(t.peer), q)
  }

  /** The answer arrives: the peer tried is marked by its address, and the loop ends or goes on. */
  ghost predicate Answered(p: Pool, r: Request, ok: bool, q: Pool, s: Request)
    requires |p.addrs| == |p.until|
  {
    && r.phase.Waiting? && r.tries != [] && r.tries[|r.tries| - 1].peer < |p.addrs|
    && Marked(p, p.addrs[r.tries[|r.tries| - 1].peer], if ok then Up else Down, q)
    && s == Request(AfterAnswer(p, r, ok), r.tries)
  }

  function AfterAnswer(p: Pool, r: Request, ok: bool): Phase {
    if ok then Finished(Served) else if |r.tries| == Attempts(p) then Finished(Exhausted) else Ready
  }

  /** Try `i` has been answered with a failure. */
  predicate Failed(r: Request, i: nat) {
    i < |r.tries| && (i < |r.tries| - 1 || !(r.phase.Waiting? || r.phase == Finished(Served)))
  }

  /** The mark-down that answered try `i`, made after its pick and before the next one. */
  ghost predicate FailureAt(p: Pool, r: Request, i: nat, d: nat)
    requires i < |r.tries|
  {
    && r.tries[i].mark <= d < (if i + 1 < |r.tries| then r.tries[i + 1].mark else |p.events|) <= |p.events|
    && p.events[d].mark.Down? && p.events[d].at >= r.tries[i].at
    && r.tries[i].peer < |p.addrs| && Find(p.addrs, p.addrs[r.tries[i].peer]) == Some(p.events[d].peer)
  }

  ghost predicate FailureMarked(p: Pool, r: Request, i: nat)
    requires i < |r.tries|
  {
    Failed(r, i) ==> exists d :: FailureAt(p, r, i, d)
  }

  /** The mark-up that answered the last try, made after its pick. */
  ghost predicate SuccessAt(p: Pool, r: Request, d: nat)
    requires r.tries != []
  {
    var t := r.tries[|r.tries| - 1];
    && t.mark <= d < |p.events| && p.events[d].mark.Up?
    && t.peer < |p.addrs| && Find(p.addrs, p.addrs[t.peer]) == Some(p.events[d].peer)
  }

  ghost predicate SuccessMarked(p: Pool, r: Request) {
    r.phase == Finished(Served) ==> r.tries != [] && exists d :: SuccessAt(p, r, d)
  }

  /** The peer of try `t` was healthy, by its history, when it was picked; later marks are no earlier. */
  ghost predicate TryOk(p: Pool, t: Try) {
    && t.peer < |p.addrs| && t.mark <= |p.events| && t.at <= p.clock
    && Expired(p.events[..t.mark], t.peer, t.at)
    && forall k | t.mark <= k < |p.events| :: t.at <= p.events[k].at
  }

  /** What holds of every request in every reachable state. */
  ghost predicate RequestOk(p: Pool, r: Request) {
    && |r.tries| <= |p.addrs|
    && (r.phase.Ready? ==> |r.tries| < Attempts(p))
    && (r.phase.Waiting? ==> r.tries != [])
    && SuccessMarked(p, r)
    && (r.phase == Finished(Exhausted) ==> |r.tries| == |p.addrs| > 0)
    && (forall i | 0 <= i < |r.tries| :: TryOk(p, r.tries[i]))
    && (forall i | 0 <= i < |r.tries| - 1 :: r.tries[i].at <= r.tries[i + 1].at)
    && (forall i | 0 <= i < |r.tries| :: FailureMarked(p, r, i))
  }

  lemma OthersKeepRequestOk(p: Pool, r: Request, q: Pool)
    requires RequestOk(p, r) && Extends(p, q)
    ensures RequestOk(q, r)
  {
    forall i | 0 <= i < |r.tries| ensures TryOk(q, r.tries[i]) {
      assert q.events[..r.tries[i].mark] == p.events[..r.tries[i].mark];
    }
    forall i | 0 <= i < |r.tries| ensures FailureMarked(q, r, i) {
      if Failed(r, i) {
        assert FailureMarked(p, r, i);
        var d :| FailureAt(p, r, i, d);
        assert FailureAt(q, r, i, d);
      }
    }
    if r.phase == Finished(Served) {
      var d :| SuccessAt(p, r, d);
      assert SuccessAt(q, r, d);
    }
  }

  lemma TriesKeepsRequestOk(p: Pool, r: Request, q: Pool, s: Request)
    requires Consistent(p) && RequestOk(p, r) && Tries(p, r, q, s)
    ensures Consistent(q) && Extends(p, q) && RequestOk(q, s)
  {
    hide LogRule, LogsMark, UntilAfter, TimesOrdered, Slot;
    StepConsistent(p, q);
    OthersKeepRequestOk(p, r, q);
    var n := |r.tries|;
    if s.phase.Waiting? {
      PickedIsHealthy(p, s.tries[n].peer, q);
      assert q.events[..s.tries[n].mark] == q.events;
      assert TryOk(q, s.tries[n]);
      assert FailureMarked(q, s, n);
    }
    forall i | 0 <= i < n ensures FailureMarked(q, s, i) {
      assert FailureMarked(p, r, i);
      var d :| FailureAt(p, r, i, d);
      assert FailureAt(q, s, i, d);
    }
    assert forall i | 0 <= i < n :: s.tries[i] == r.tries[i];
  }

  lemma AnsweredKeepsRequestOk(p: Pool, r: Request, ok: bool, q: Pool, s: Request)
    requires Consistent(p) && RequestOk(p, r) && Answered(p, r, ok, q, s)
    ensures Consistent(q) && Extends(p, q) && RequestOk(q, s)
  {
    hide LogRule, LogsMark, UntilAfter, TimesOrdered, Expired;
    var n := |r.tries| - 1;
    MarkedConsistent(p, p.addrs[r.tries[n].peer], if ok then Up else Down, q);
    OthersKeepRequestOk(p, r, q);
    forall i | 0 <= i < |s.tries| ensures FailureMarked(q, s, i) {
      if i < n {
        assert FailureMarked(q, r, i);
        var d :| FailureAt(q, r, i, d);
        assert FailureAt(q, s, i, d);
      } else if !ok {
        assert TryOk(p, r.tries[n]);
        assert FailureAt(q, s, n, |p.events|);
      }
    }
    if ok {
      assert TryOk(p, r.tries[n]);
      assert SuccessAt(q, s, |p.events|);
    }
  }

  // ---- All requests, the probe and the clock ----

  /** `cursor` is the next peer the probe loop asks. */
  datatype System = System(pool: Pool, requests: map<nat, Request>, cursor: nat)

  datatype Step =
    | Tick
    | Begin(id: nat)
    | Pick(id: nat)
    | Answer(id: nat, ok: bool)
    | Probe(ok: bool)

  ghost predicate Next(s: System, step: Step, t: System)
    requires |s.pool.addrs| == |s.pool.until|
  {
    match step
    case Tick => Ticked(s.pool, t.pool) && t == s.(pool := t.pool)
    case Begin(id) => id !in s.requests && t == s.(requests := s.requests[id := Request(Ready, [])])
    case Pick(id) =>
      && id in s.requests && id in t.requests
      && Tries(s.pool, s.requests[id], t.pool, t.requests[id])
      && t == s.(pool := t.pool, requests := s.requests[id := t.requests[id]])
    case Answer(id, ok) =>
      && id in s.requests && id in t.requests
      && Answered(s.pool, s.requests[id], ok, t.pool, t.requests[id])
      && t == s.(pool := t.pool, requests := s.requests[id := t.requests[id]])
    case Probe(ok) =>
      && s.cursor < |s.pool.addrs|
      && Marked(s.pool, s.pool.addrs[s.cursor], if ok then Up else Down, t.pool)
      && t == s.(pool := t.pool, cursor := if s.cursor + 1 == |s.pool.addrs| then 0 else s.cursor + 1)
  }

  ghost predicate SystemOk(s: System) {
    Consistent(s.pool) && forall id | id in s.requests :: RequestOk(s.pool, s.requests[id])
  }

  /** Steps `steps[i]` lead from `run[i]` to `run[i + 1]`, from a fresh pool without requests. */
  ghost predicate SystemRun(run: seq<System>, steps: seq<Step>) {
    && |run| == |steps| + 1
    && (exists addrs, clock: nat :: clock <= U64_MAX && run[0] == System(NewPool(addrs, clock), map[], 0))
    && forall i | 0 <= i < |steps| :: |run[i].pool.addrs| == |run[i].pool.until| && Next(run[i], steps[i], run[i + 1])
  }

  lemma NextKeepsOk(s: System, step: Step, t: System)
    requires SystemOk(s) && Next(s, step, t)
    ensures SystemOk(t) && Extends(s.pool, t.pool)
    ensures forall id | id in s.requests :: id in t.requests && s.requests[id].tries <= t.requests[id].tries
  {
    hide RequestOk, Consistent;
    match step {
      case Tick => StepConsistent(s.pool, t.pool);
      case Begin(id) => FreshRequestOk(s.pool);
      case Pick(id) => TriesKeepsRequestOk(s.pool, s.requests[id], t.pool, t.requests[id]);
      case Answer(id, ok) => AnsweredKeepsRequestOk(s.pool, s.requests[id], ok, t.pool, t.requests[id]);
      case Probe(ok) => MarkedConsistent(s.pool, s.pool.addrs[s.cursor], if ok then Up else Down, t.pool);
    }
    forall id | id in t.requests ensures RequestOk(t.pool, t.requests[id]) {
      if id in s.requests && t.requests[id] == s.requests[id] {
        OthersKeepRequestOk(s.pool, s.requests[id], t.pool);
      }
    }
  }

  lemma FreshRequestOk(p: Pool)
    ensures RequestOk(p, Request(Ready, []))
  {
  }

  /** Every reachable state keeps the timers, the history and the requests as described. */
  lemma {:induction false} RunKeepsOk(run: seq<System>, steps: seq<Step>, i: nat)
    requires SystemRun(run, steps) && i < |run|
    ensures SystemOk(run[i])
  {
    if i == 0 {
      var addrs, clock: nat :| clock <= U64_MAX && run[0] == System(NewPool(addrs, clock), map[], 0);
      NewPoolConsistent(addrs, clock);
    } else {
      RunKeepsOk(run, steps, i - 1);
      NextKeepsOk(run[i - 1], steps[i - 1], run[i]);
    }
  }

  // ---- At most one upstream request per peer, and the loop ends ----

  /** How many more steps a request can take. */
  function Rank(p: Pool, r: Request): nat {
    match r.phase
    case Ready => 2 * Max(Attempts(p) - |r.tries|)
    case Waiting => 2 * Max(Attempts(p) - |r.tries|) + 1
    case Finished(_) => 0
  }

  function Max(x: int): nat {
    if x < 0 then 0 else x
  }

  predicate IsStepOf(step: Step, id: nat) {
    step == Pick(id) || step == Answer(id, true) || step == Answer(id, false)
  }

  lemma OwnStepLowersRank(p: Pool, r: Request, q: Pool, s: Request)
    requires RequestOk(p, r) && q.addrs == p.addrs && |p.addrs| == |p.until|
    requires Tries(p, r, q, s) || exists ok :: Answered(p, r, ok, q, s)
    ensures Rank(q, s) < Rank(p, r)
  {
  }

  /** A step of a request lowers its rank; no other step changes it. */
  lemma RankFalls(s: System, step: Step, t: System, id: nat)
    requires SystemOk(s) && Next(s, step, t) && id in s.requests
    ensures id in t.requests
    ensures IsStepOf(step, id) ==> Rank(t.pool, t.requests[id]) < Rank(s.pool, s.requests[id])
    ensures !IsStepOf(step, id) ==> t.requests[id] == s.requests[id] && Rank(t.pool, t.requests[id]) == Rank(s.pool, s.requests[id])
  {
    hide RequestOk, Tries, Answered;
    NextKeepsOk(s, step, t);
    if IsStepOf(step, id) {
      OwnStepLowersRank(s.pool, s.requests[id], t.pool, t.requests[id]);
    }
  }

  function StepsOf(steps: seq<Step>, id: nat): nat {
    if steps == [] then 0 else StepsOf(steps[..|steps| - 1], id) + if IsStepOf(steps[|steps| - 1], id) then 1 else 0
  }

  lemma {:induction false} StepsBounded(run: seq<System>, steps: seq<Step>, id: nat)
    requires SystemRun(run, steps)
    ensures id !in run[|steps|].requests ==> StepsOf(steps, id) == 0
    ensures id in run[|steps|].requests ==>
      StepsOf(steps, id) + Rank(run[|steps|].pool, run[|steps|].requests[id]) <= 2 * Attempts(run[|steps|].pool)
    decreases |steps|
  {
    if steps != [] {
      var n := |steps| - 1;
      assert SystemRun(run[..n + 1], steps[..n]);
      StepsBounded(run[..n + 1], steps[..n], id);
      RunKeepsOk(run, steps, n);
      NextKeepsOk(run[n], steps[n], run[n + 1]);
      if id in run[n].requests {
        RankFalls(run[n], steps[n], run[n + 1], id);
      }
    }
  }

  /**
   * Whatever else happens, a request takes at most two steps per peer, tries at most as many
   * peers as there are, and each peer it tries is healthy, by its history, when picked.
   */
  lemma RequestsAreBounded(run: seq<System>, steps: seq<Step>, i: nat, id: nat)
    requires SystemRun(run, steps) && i < |run| && id in run[i].requests
    ensures StepsOf(steps[..i], id) <= 2 * Attempts(run[i].pool)
    ensures
      var r := run[i].requests[id];
      |r.tries| <= |run[i].pool.addrs|
      && forall j | 0 <= j < |r.tries| ::
           r.tries[j].mark <= |run[i].pool.events|
           && Expired(run[i].pool.events[..r.tries[j].mark], r.tries[j].peer, r.tries[j].at)
  {
    RunKeepsOk(run, steps, i);
    assert SystemRun(run[..i + 1], steps[..i]);
    StepsBounded(run[..i + 1], steps[..i], id);
  }

  // ---- Failing peers are left alone ----

  /**
   * A peer that was marked down at event `d`, by anyone, and not marked up before a later try
   * is tried only when every mark-down of it from `d` on has run out. So a peer whose probes
   * keep failing less than ten seconds apart is not tried from its first failed probe on.
   */
  lemma FailingPeerIsNotTried(p: Pool, r: Request, j: nat, d: nat, e: nat)
    requires Consistent(p) && RequestOk(p, r) && j < |r.tries| && d <= e < r.tries[j].mark
    requires p.events[d].peer == r.tries[j].peer && p.events[d].mark.Down?
    requires NoUp(p.events, r.tries[j].peer, d, r.tries[j].mark)
    requires p.events[e].peer == r.tries[j].peer
    ensures TenSecondsOver(p.events[e].at, r.tries[j].at)
  {
    var past := p.events[..r.tries[j].mark];
    assert past[e] == p.events[e] && past[e].mark.Down?;
    assert NoUp(past, r.tries[j].peer, e, |past|);
  }

  /** Peer `i` is marked down at event `k` and again before that runs out. */
  ghost predicate FailsAgain(p: Pool, i: nat, k: nat)
    requires k < |p.events|
  {
    exists l | k < l < |p.events| :: p.events[l].peer == i && !TenSecondsOver(p.events[k].at, p.events[l].at)
  }

  /** From event `d` until now peer `i` is marked down, by anyone, less than ten seconds apart, and never up. */
  ghost predicate KeepsFailing(p: Pool, i: nat, d: nat) {
    && d < |p.events| && p.events[d].peer == i && p.events[d].mark.Down?
    && NoUp(p.events, i, d, |p.events|)
    && forall k | d <= k < |p.events| && p.events[k].peer == i ::
         !TenSecondsOver(p.events[k].at, p.clock) || FailsAgain(p, i, k)
  }

  /** A peer that is tried after it was marked down, and never up since, had been left unmarked for ten seconds. */
  lemma TriedPeerHadAPause(p: Pool, r: Request, j: nat, d: nat) returns (e: nat)
    requires Consistent(p) && RequestOk(p, r) && j < |r.tries| && d < r.tries[j].mark
    requires p.events[d].peer == r.tries[j].peer && p.events[d].mark.Down?
    requires NoUp(p.events, r.tries[j].peer, d, |p.events|)
    ensures d <= e < |p.events| && p.events[e].peer == r.tries[j].peer
    ensures TenSecondsOver(p.events[e].at, p.clock) && !FailsAgain(p, r.tries[j].peer, e)
  {
    assert TryOk(p, r.tries[j]);
    var i, past := r.tries[j].peer, p.events[..r.tries[j].mark];
    assert past[d].peer == i;
    e := Last(past, i);
    assert p.events[e] == past[e];
    FailingPeerIsNotTried(p, r, j, d, e);
    forall l | e < l < |past| ensures p.events[l].peer != i {
      assert p.events[l] == past[l];
    }
  }

  /** A peer that keeps failing is not tried by any request from its first failure on. */
  lemma KeepsFailingIsLeftAlone(run: seq<System>, steps: seq<Step>, n: nat, id: nat, j: nat, i: nat, d: nat)
    requires SystemRun(run, steps) && n < |run| && id in run[n].requests
    requires KeepsFailing(run[n].pool, i, d)
    requires j < |run[n].requests[id].tries| && run[n].requests[id].tries[j].mark > d
    ensures run[n].requests[id].tries[j].peer != i
  {
    RunKeepsOk(run, steps, n);
    if run[n].requests[id].tries[j].peer == i {
      var e := TriedPeerHadAPause(run[n].pool, run[n].requests[id], j, d);
    }
  }

  /**
   * With distinct addresses, a request tries a peer again only if somebody marked that peer up
   * in between, or ten seconds have passed since the failure `d` of the earlier try.
   */
  lemma RetryNeedsRecovery(p: Pool, r: Request, i: nat, j: nat, d: nat)
    requires Consistent(p) && Distinct(p.addrs) && RequestOk(p, r)
    requires i < j < |r.tries| && r.tries[i].peer == r.tries[j].peer && FailureAt(p, r, i, d)
    ensures r.tries[i].mark <= r.tries[j].mark <= |p.events|
    ensures !NoUp(p.events, r.tries[i].peer, r.tries[i].mark, r.tries[j].mark)
            || TenSecondsOver(p.events[d].at, r.tries[j].at)
  {
    MarksOrdered(p, r, i + 1, j);
    assert TryOk(p, r.tries[j]) && TryOk(p, r.tries[i]);
    FindDistinct(p.addrs, r.tries[i].peer);
    if NoUp(p.events, r.tries[i].peer, r.tries[i].mark, r.tries[j].mark) {
      FailingPeerIsNotTried(p, r, j, d, d);
    }
  }

  lemma {:induction false} MarksOrdered(p: Pool, r: Request, i: nat, j: nat)
    requires RequestOk(p, r) && i <= j < |r.tries|
    ensures r.tries[i].mark <= r.tries[j].mark && r.tries[i].at <= r.tries[j].at
    decreases j - i
  {
    if i < j {
      assert FailureMarked(p, r, i);
      var d :| FailureAt(p, r, i, d);
      MarksOrdered(p, r, i + 1, j);
    }
  }

  /**
   * Nobody marked a peer up after the request had tried it, and ten seconds have not passed
   * since the first failure.
   */
  ghost predicate Undisturbed(p: Pool, r: Request)
    requires RequestOk(p, r) && r.tries != []
  {
    var n := |r.tries| - 1;
    && (forall i | 0 <= i < n :: NoUp(p.events, r.tries[i].peer, r.tries[i].mark, r.tries[n].mark))
    && (n > 0 ==> exists d: nat :: FailureAt(p, r, 0, d) && !TenSecondsOver(p.events[d].at, r.tries[n].at))
  }

  lemma LaterFailureIsLater(p: Pool, r: Request, first: nat, i: nat, d: nat)
    requires Consistent(p) && RequestOk(p, r) && 0 < i < |r.tries|
    requires FailureAt(p, r, 0, first) && FailureAt(p, r, i, d)
    ensures p.events[first].at <= p.events[d].at
  {
    MarksOrdered(p, r, 1, i);
  }

  lemma UndisturbedTriesDiffer(p: Pool, r: Request, i: nat, j: nat)
    requires Consistent(p) && Distinct(p.addrs) && RequestOk(p, r)
    requires i < j < |r.tries| && Undisturbed(p, r)
    ensures r.tries[i].peer != r.tries[j].peer
  {
    hide Consistent, Expired, Find, SuccessMarked;
    MarksOrdered(p, r, j, |r.tries| - 1);
    if r.tries[i].peer == r.tries[j].peer {
      var first: nat :| FailureAt(p, r, 0, first) && !TenSecondsOver(p.events[first].at, r.tries[|r.tries| - 1].at);
      assert FailureMarked(p, r, i);
      var d: nat :| FailureAt(p, r, i, d) && (i == 0 ==> d == first);
      if i > 0 {
        LaterFailureIsLater(p, r, first, i, d);
      }
      RetryNeedsRecovery(p, r, i, j, d);
    }
  }

  /** Running out of attempts, undisturbed, means that every peer was tried, just once, and failed. */
  lemma ExhaustedTriedEveryPeer(p: Pool, r: Request, i: nat) returns (j: nat)
    requires Consistent(p) && Distinct(p.addrs) && RequestOk(p, r)
    requires r.phase == Finished(Exhausted) && Undisturbed(p, r) && i < |p.addrs|
    ensures j < |r.tries| && r.tries[j].peer == i && Failed(r, j)
    ensures forall k | 0 <= k < |r.tries| && k != j :: r.tries[k].peer != i
  {
    var peers := PeersOf(r.tries);
    forall k, l | 0 <= k < l < |peers| ensures peers[k] != peers[l] {
      UndisturbedTriesDiffer(p, r, k, l);
    }
    assert forall k | 0 <= k < |peers| :: TryOk(p, r.tries[k]) && peers[k] < |peers|;
    j := Pigeonhole(peers, i);
    assert forall k | 0 <= k < |r.tries| && k != j :: peers[k] != i;
  }

  /** Finding no healthy peer, in safe rounds, means that of every peer a mark-down is less than ten seconds old. */
  lemma NoHealthyPeersMeansAllDown(p: Pool, r: Request, q: Pool, s: Request, i: nat) returns (d: nat)
    requires Consistent(p) && Tries(p, r, q, s) && s.phase == Finished(NoHealthyPeers)
    requires i < |p.addrs| <= U64_MAX && RoundsAreSafe(p.next, |p.addrs|)
    ensures d < |p.events| && p.events[d].peer == i && p.events[d].mark.Down?
    ensures NoUp(p.events, i, d, |p.events|) && !TenSecondsOver(p.events[d].at, p.clock)
  {
    NothingPickedMeansAllDown(p, q);
    assert !Expired(p.events, i, p.clock);
    d :| 0 <= d < |p.events| && p.events[d].peer == i && p.events[d].mark.Down? && NoUp(p.events, i, d, |p.events|)
         && !TenSecondsOver(p.events[d].at, p.clock);
  }

  function PeersOf(tries: seq<Try>): (peers: seq<nat>)
    ensures |peers| == |tries| && forall k | 0 <= k < |tries| :: peers[k] == tries[k].peer
  {
    if tries == [] then [] else PeersOf(tries[..|tries| - 1]) + [tries[|tries| - 1].peer]
  }

  /** `|peers|` different numbers below `|peers|` are all of them. */
  lemma Pigeonhole(peers: seq<nat>, i: nat) returns (j: nat)
    requires forall k, l | 0 <= k < l < |peers| :: peers[k] != peers[l]
    requires forall k | 0 <= k < |peers| :: peers[k] < |peers|
    requires i < |peers|
    ensures j < |peers| && peers[j] == i
  {
    var used := SetOf(peers);
    if i !in used {
      SizeWithin(used, Below(|peers|) - {i});
    }
    j :| 0 <= j < |peers| && peers[j] == i;
  }

  function Below(n: nat): (s: set<nat>)
    ensures |s| == n && forall x: nat :: x in s <==> x < n
  {
    if n == 0 then {} else Below(n - 1) + {n - 1}
  }

  /** Different numbers make a set of as many elements. */
  function SetOf(xs: seq<nat>): (s: set<nat>)
    requires forall k, l | 0 <= k < l < |xs| :: xs[k] != xs[l]
    ensures |s| == |xs| && forall x: nat :: x in s <==> x in xs
  {
    if xs == [] then {} else
    var n := |xs| - 1;
    assert xs == xs[..n] + [xs[n]];
    SetOf(xs[..n]) + {xs[n]}
  }

  lemma SizeWithin(a: set<nat>, b: set<nat>)
    requires a <= b
    ensures |a| <= |b|
  {
    assert |b - a| == |b| - |a|;
  }

  // ---- Why the addresses have to be distinct ----

  /** Different tries of the request went to different addresses. */
  ghost predicate TriesDiffer(p: Pool, r: Request) {
    && (forall i | 0 <= i < |r.tries| :: r.tries[i].peer < |p.addrs|)
    && forall i, j | 0 <= i < j < |r.tries| :: p.addrs[r.tries[i].peer] != p.addrs[r.tries[j].peer]
  }

  /** The state after the first `k` peers of a fresh pool were tried in turn, at time 0, and failed. */
  ghost predicate FirstFailed(s: System, addrs: seq<SocketAddr>, k: nat) {
    && k <= |addrs| && SystemOk(s) && s.pool.addrs == addrs && s.pool.next == k && s.pool.clock == 0
    && (forall i | k <= i < |addrs| :: s.pool.until[i] == 0)
    && (forall i | 0 <= i < |s.pool.events| :: s.pool.events[i].mark.Down?)
    && 0 in s.requests
    && s.requests[0].phase == (if k == |addrs| then Finished(Exhausted) else Ready)
    && |s.requests[0].tries| == k
    && (forall i | 0 <= i < k :: s.requests[0].tries[i].peer == i && s.requests[0].tries[i].at == 0)
  }

  ghost predicate NextWaits(t: System, s: System, k: nat)
    requires 0 in s.requests
  {
    var r := s.requests[0];
    t == s.(pool := s.pool.(next := k + 1),
            requests := s.requests[0 := Request(Waiting, r.tries + [Try(k, 0, |s.pool.events|)])])
  }

  lemma FirstSlot(k: nat, n: nat)
    requires k < n <= U64_MAX
    ensures Slot(k, 0, n) == k
  {
    Quotient(k, U64_MAX + 1, 0, k);
    Quotient(k, n, 0, k);
  }

  lemma NextPeerIsPicked(s: System, addrs: seq<SocketAddr>, k: nat) returns (t: System)
    requires FirstFailed(s, addrs, k) && k < |addrs| <= U64_MAX
    ensures Next(s, Pick(0), t) && SystemOk(t) && NextWaits(t, s, k)
  {
    FirstSlot(k, |addrs|);
    hide RequestOk, Marked, LogRule, UntilAfter, Last, Slot;
    var r := s.requests[0];
    var q := s.pool.(next := k + 1);
    var r' := Request(Waiting, r.tries + [Try(k, 0, |s.pool.events|)]);
    assert FoundAt(s.pool, 0, 0) && Slot(s.pool.next, 0, |addrs|) == k;
    assert Picked(s.pool, Some(k), q);
    t := s.(pool := q, requests := s.requests[0 := r']);
    assert Tries(s.pool, r, t.pool, t.requests[0]);
    NextKeepsOk(s, Pick(0), t);
  }

  lemma PickedPeerFails(s: System, t: System, addrs: seq<SocketAddr>, k: nat) returns (u: System)
    requires FirstFailed(s, addrs, k) && k < |addrs| <= U64_MAX && NextWaits(t, s, k) && SystemOk(t)
    ensures Next(t, Answer(0, false), u) && FirstFailed(u, addrs, k + 1)
  {
    hide RequestOk, LogsMark;
    var p, r := t.pool, t.requests[0];
    var i := Find(addrs, addrs[k]).value;
    assert i <= k;
    var logged := Healthy(p.until[i], 0);
    var q := p.(until := p.until[i := DownUntil(0)], events := p.events + [Event(i, Down, 0, 0, logged)]);
    assert LogsMark(Down, p.until[i], 0, 0, logged) by {
      DownIsLogged(p.until[i], 0);
    }
    assert Marked(p, addrs[k], Down, q);
    var s' := Request(if k + 1 == |addrs| then Finished(Exhausted) else Ready, r.tries);
    assert r.tries[|r.tries| - 1].peer == k;
    assert Answered(p, r, false, q, s');
    u := t.(pool := q, requests := t.requests[0 := s']);
    NextKeepsOk(t, Answer(0, false), u);
  }

  lemma DownIsLogged(until: nat, now: nat)
    ensures LogsMark(Down, until, now, now, Healthy(until, now))
  {
  }

  lemma RunGrows(run: seq<System>, steps: seq<Step>, step: Step, t: System)
    requires SystemRun(run, steps) && SystemOk(run[|steps|]) && Next(run[|steps|], step, t)
    ensures SystemRun(run + [t], steps + [step])
  {
    hide Next, NewPool;
  }

  lemma {:induction false} FreshPoolFails(addrs: seq<SocketAddr>, k: nat) returns (run: seq<System>, steps: seq<Step>)
    requires 0 < |addrs| <= U64_MAX && k <= |addrs|
    ensures SystemRun(run, steps) && run[0].pool.addrs == addrs && FirstFailed(run[|steps|], addrs, k)
  {
    if k == 0 {
      var s := System(NewPool(addrs, 0), map[], 0);
      NewPoolConsistent(addrs, 0);
      run, steps := [s], [];
      var t := s.(requests := map[0 := Request(Ready, [])]);
      RunGrows(run, steps, Begin(0), t);
      NextKeepsOk(s, Begin(0), t);
      run, steps := run + [t], steps + [Begin(0)];
    } else {
      hide SystemRun, Next, FirstFailed, NextWaits;
      run, steps := FreshPoolFails(addrs, k - 1);
      var s := run[|steps|];
      var t := NextPeerIsPicked(s, addrs, k - 1);
      var u := PickedPeerFails(s, t, addrs, k - 1);
      RunKeepsOk(run, steps, |steps|);
      RunGrows(run, steps, Pick(0), t);
      RunGrows(run + [t], steps + [Pick(0)], Answer(0, false), u);
      run, steps := run + [t] + [u], steps + [Pick(0)] + [Answer(0, false)];
    }
  }

  /** In the final state of every run, the undisturbed tries of request `id` went to different addresses. */
  ghost predicate NeverRetriesIn(run: seq<System>, steps: seq<Step>, id: nat) {
    SystemRun(run, steps) ==>
      var s := run[|steps|];
      (id in s.requests && RequestOk(s.pool, s.requests[id]) && s.requests[id].tries != []
       && Undisturbed(s.pool, s.requests[id])) ==> TriesDiffer(s.pool, s.requests[id])
  }

  /** Undisturbed requests never try an address twice exactly when the pool's addresses are distinct. */
  lemma NeverRetriesIffDistinct(addrs: seq<SocketAddr>)
    requires 0 < |addrs| <= U64_MAX
    ensures Distinct(addrs) <==>
            forall run: seq<System>, steps: seq<Step>, id: nat | SystemRun(run, steps) && run[0].pool.addrs == addrs :: NeverRetriesIn(run, steps, id)
  {
    if Distinct(addrs) {
      forall run: seq<System>, steps: seq<Step>, id: nat | SystemRun(run, steps) && run[0].pool.addrs == addrs ensures NeverRetriesIn(run, steps, id) {
        var s := run[|steps|];
        RunKeepsOk(run, steps, |steps|);
        AddressesStay(run, steps, |steps|);
        if id in s.requests && s.requests[id].tries != [] && Undisturbed(s.pool, s.requests[id]) {
          DistinctTriesDiffer(s.pool, s.requests[id]);
        }
      }
    } else {
      var run, steps := FreshPoolFails(addrs, |addrs|);
      var s := run[|steps|];
      var i, j :| 0 <= i < j < |addrs| && addrs[i] == addrs[j];
      RunKeepsOk(run, steps, |steps|);
      FailedAtOnceIsUndisturbed(s, addrs);
      assert s.requests[0].tries[i].peer == i && s.requests[0].tries[j].peer == j;
      assert !NeverRetriesIn(run, steps, 0);
    }
  }

  lemma FailedAtOnceIsUndisturbed(s: System, addrs: seq<SocketAddr>)
    requires FirstFailed(s, addrs, |addrs|) && addrs != []
    ensures Undisturbed(s.pool, s.requests[0])
  {
    var p, r := s.pool, s.requests[0];
    assert FailureMarked(p, r, 0);
    var d: nat :| FailureAt(p, r, 0, d);
    assert !TenSecondsOver(p.events[d].at, r.tries[|r.tries| - 1].at);
  }

  lemma DistinctTriesDiffer(p: Pool, r: Request)
    requires Consistent(p) && Distinct(p.addrs) && RequestOk(p, r) && r.tries != [] && Undisturbed(p, r)
    ensures TriesDiffer(p, r)
  {
    forall i | 0 <= i < |r.tries| ensures r.tries[i].peer < |p.addrs| {
      assert TryOk(p, r.tries[i]);
    }
    forall i, j | 0 <= i < j < |r.tries| ensures p.addrs[r.tries[i].peer] != p.addrs[r.tries[j].peer] {
      UndisturbedTriesDiffer(p, r, i, j);
    }
  }

  lemma {:induction false} AddressesStay(run: seq<System>, steps: seq<Step>, i: nat)
    requires SystemRun(run, steps) && i < |run|
    ensures run[i].pool.addrs == run[0].pool.addrs
  {
    if i > 0 {
      AddressesStay(run, steps, i - 1);
      RunKeepsOk(run, steps, i - 1);
      NextKeepsOk(run[i - 1], steps[i - 1], run[i]);
    }
  }
}
