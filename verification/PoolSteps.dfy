/**
 * One upstream pool as a step system: picks by round robin, peers marked down or up, and a
 * clock that never goes back. `pick` and `mark_*` contain no await, so each is one step; the
 * clock readings inside a step lie between the clock before it (`p.clock`) and after it
 * (`q.clock`). The history of marks is kept beside the state that the program keeps.
 */
module PoolSteps {
  import opened Wrappers
  import opened Addresses
  import opened Arithmetic

  const U64_MAX: nat := 0xFFFF_FFFF_FFFF_FFFF
  const FAIL_TIMEOUT_MS: nat := 10_000

  datatype Mark = Up | Down

  /**
   * A call of `mark_up` or `mark_down` that found its peer, from clock `from` to clock `at`;
   * `logged` when it wrote a record.
   */
  datatype Event = Event(peer: nat, mark: Mark, from: nat, at: nat, logged: bool)

  datatype Pool = Pool(addrs: seq<SocketAddr>, until: seq<nat>, next: nat, clock: nat, events: seq<Event>)

  function SaturatingAdd(a: nat, b: nat): nat {
    if a + b > U64_MAX then U64_MAX else a + b
  }

  /** The time until which a peer marked down at `at` stays down. */
  function DownUntil(at: nat): nat {
    SaturatingAdd(at, FAIL_TIMEOUT_MS)
  }

  /** Ten seconds have passed since `at`, or the 64-bit clock has no later reading. */
  predicate TenSecondsOver(at: nat, now: nat) {
    now >= at + 10_000 || now >= 18_446_744_073_709_551_615
  }

  predicate Healthy(until: nat, now: nat) {
    until == 0 || now >= until
  }

  /** The peer that `pick` looks at in round `off`, with 64-bit wrap-around of the sum. */
  function Slot(start: nat, off: nat, n: nat): (i: nat)
    requires n > 0
    ensures i < n
  {
    (start + off) % (U64_MAX + 1) % n
  }

  ghost predicate Distinct(addrs: seq<SocketAddr>) {
    forall i, j | 0 <= i < j < |addrs| :: addrs[i] != addrs[j]
  }

  lemma FindDistinct(addrs: seq<SocketAddr>, i: nat)
    requires Distinct(addrs) && i < |addrs|
    ensures Find(addrs, addrs[i]) == Some(i)
  {
  }

  // ---- Steps ----

  function NewPool(addrs: seq<SocketAddr>, clock: nat): Pool {
    Pool(addrs, seq(|addrs|, _ => 0), 0, clock, [])
  }

  predicate ClockMoves(p: Pool, q: Pool) {
    p.clock <= q.clock <= U64_MAX
  }

  ghost predicate Ticked(p: Pool, q: Pool) {
    ClockMoves(p, q) && q == p.(clock := q.clock)
  }

  /** In round `off` of a pick the peer was found healthy, and in no earlier round. */
  ghost predicate FoundAt(p: Pool, off: nat, now: nat)
    requires off < |p.addrs| == |p.until|
  {
    && Healthy(p.until[Slot(p.next, off, |p.addrs|)], now)
    && forall k | 0 <= k < off :: !Healthy(p.until[Slot(p.next, k, |p.addrs|)], p.clock)
  }

  ghost predicate Picked(p: Pool, r: Option<nat>, q: Pool)
    requires |p.addrs| == |p.until|
  {
    var n := |p.addrs|;
    && ClockMoves(p, q)
    && q == p.(clock := q.clock, next := if n == 0 then p.next else (p.next + 1) % (U64_MAX + 1))
    && match r
       case Some(i) => exists off | 0 <= off < n :: Slot(p.next, off, n) == i && FoundAt(p, off, q.clock)
       case None => forall off | 0 <= off < n :: !Healthy(p.until[Slot(p.next, off, n)], p.clock)
  }

  /** Whether a mark writes a record: it does when the peer's health, read within the step, changes. */
  predicate LogsMark(m: Mark, until: nat, before: nat, after: nat, logged: bool) {
    match m
    case Down => if logged then Healthy(until, after) else !Healthy(until, before)
    case Up => if logged then !Healthy(until, before) else Healthy(until, after)
  }

  /** `mark_up` and `mark_down` act on the first peer with the address, if any. */
  ghost predicate Marked(p: Pool, a: SocketAddr, m: Mark, q: Pool)
    requires |p.addrs| == |p.until|
  {
    && ClockMoves(p, q)
    && match Find(p.addrs, a)
       case None => q == p.(clock := q.clock)
       case Some(i) => exists logged: bool ::
         && LogsMark(m, p.until[i], p.clock, q.clock, logged)
         && q == p.(clock := q.clock,
                    until := p.until[i := if m.Down? then DownUntil(q.clock) else 0],
                    events := p.events + [Event(i, m, p.clock, q.clock, logged)])
  }

  ghost predicate PoolStep(p: Pool, q: Pool)
    requires |p.addrs| == |p.until|
  {
    Ticked(p, q) || (exists r :: Picked(p, r, q)) || (exists a, m :: Marked(p, a, m, q))
  }

  // ---- History ----

  /** The last event on peer `i`, or -1. */
  function Last(events: seq<Event>, i: nat): (k: int)
    ensures -1 <= k < |events| && (k >= 0 ==> events[k].peer == i)
    ensures forall j | k < j < |events| :: events[j].peer != i
  {
    var n := |events| - 1;
    if n < 0 then -1 else if events[n].peer == i then n else Last(events[..n], i)
  }

  /** What a history leaves in a peer's `down_until_ms`. */
  function UntilAfter(events: seq<Event>, i: nat): nat {
    var k := Last(events, i);
    if k < 0 || events[k].mark.Up? then 0 else DownUntil(events[k].at)
  }

  ghost predicate TimesOrdered(events: seq<Event>) {
    && (forall k | 0 <= k < |events| :: events[k].from <= events[k].at)
    && (forall j, k | 0 <= j < k < |events| :: events[j].at <= events[k].from && events[j].at <= events[k].at)
  }

  /** What the record of event `k`, written or not, shows of the peer's health before it. */
  predicate LogRule(events: seq<Event>, k: nat)
    requires k < |events|
  {
    var e := events[k];
    var until := UntilAfter(events[..k], e.peer);
    if e.logged == e.mark.Down? then Healthy(until, e.at) else !Healthy(until, e.from)
  }

  /** The invariant of every run: the timers are what the history says, and the records obey LogRule. */
  ghost predicate Consistent(p: Pool) {
    && |p.addrs| == |p.until| && p.clock <= U64_MAX && p.next <= U64_MAX
    && (forall i | 0 <= i < |p.addrs| :: p.until[i] == UntilAfter(p.events, i))
    && (forall k | 0 <= k < |p.events| :: p.events[k].peer < |p.addrs| && p.events[k].at <= p.clock)
    && TimesOrdered(p.events)
    && (forall k | 0 <= k < |p.events| :: LogRule(p.events, k))
  }

  /** `q` comes later than `p` in a run: the history only grows, with marks made since. */
  ghost predicate Extends(p: Pool, q: Pool) {
    && q.addrs == p.addrs && p.events <= q.events && p.clock <= q.clock
    && forall k | |p.events| <= k < |q.events| :: p.clock <= q.events[k].at
  }

  lemma NewPoolConsistent(addrs: seq<SocketAddr>, clock: nat)
    requires clock <= U64_MAX
    ensures Consistent(NewPool(addrs, clock))
  {
  }

  lemma LogRuleOfPrefix(events: seq<Event>, n: nat, k: nat)
    requires k < n <= |events|
    ensures LogRule(events[..n], k) <==> LogRule(events, k)
  {
    assert events[..n][..k] == events[..k];
  }

  lemma NewEventObeysRule(p: Pool, a: SocketAddr, m: Mark, q: Pool)
    requires Consistent(p) && Marked(p, a, m, q) && Find(p.addrs, a).Some?
    ensures LogRule(q.events, |p.events|)
  {
    hide Find, TimesOrdered;
    assert q.events[..|p.events|] == p.events;
  }

  lemma TimersFollow(p: Pool, a: SocketAddr, m: Mark, q: Pool)
    requires Consistent(p) && Marked(p, a, m, q) && Find(p.addrs, a).Some?
    ensures |q.until| == |q.addrs| && forall j | 0 <= j < |q.addrs| :: q.until[j] == UntilAfter(q.events, j)
  {
    hide Find, LogRule, LogsMark, TimesOrdered;
    var i, n := Find(p.addrs, a).value, |p.events|;
    assert q.events[..n] == p.events;
    forall j | 0 <= j < |q.addrs| ensures q.until[j] == UntilAfter(q.events, j) {
      assert Last(q.events, j) == if j == i then n else Last(p.events, j);
    }
  }

  lemma MarkedConsistent(p: Pool, a: SocketAddr, m: Mark, q: Pool)
    requires Consistent(p) && Marked(p, a, m, q)
    ensures Consistent(q) && Extends(p, q)
  {
    hide Find, LogRule, LogsMark, UntilAfter, Last;
    if Find(p.addrs, a).Some? {
      NewEventObeysRule(p, a, m, q);
      TimersFollow(p, a, m, q);
      var n := |p.events|;
      assert q.events[..n] == p.events;
      forall k | 0 <= k < |q.events| ensures LogRule(q.events, k) {
        if k < n {
          LogRuleOfPrefix(q.events, n, k);
        }
      }
    }
  }

  lemma StepConsistent(p: Pool, q: Pool)
    requires Consistent(p) && PoolStep(p, q)
    ensures Consistent(q) && Extends(p, q)
  {
    if a, m :| Marked(p, a, m, q) {
      MarkedConsistent(p, a, m, q);
    }
  }

  /** A run of the pool: any number of requests and probes, in any order. */
  ghost predicate Run(run: seq<Pool>) {
    && run != [] && Consistent(run[0]) && run[0].events == []
    && forall i | 0 <= i < |run| - 1 :: |run[i].addrs| == |run[i].until| && PoolStep(run[i], run[i + 1])
  }

  lemma {:induction false} RunConsistent(run: seq<Pool>, i: nat)
    requires Run(run) && i < |run|
    ensures Consistent(run[i])
  {
    if i > 0 {
      RunConsistent(run, i - 1);
      StepConsistent(run[i - 1], run[i]);
    }
  }

  // ---- Health is a function of the history ----

  /** No mark-up of peer `i` in `events[from..to]`. */
  ghost predicate NoUp(events: seq<Event>, i: nat, from: int, to: int)
    requires 0 <= from && to <= |events|
  {
    forall k | from <= k < to :: events[k].peer == i ==> events[k].mark.Down?
  }

  /** Every mark-down of peer `i` that no mark-up followed is ten seconds old at `now`. */
  ghost predicate Expired(events: seq<Event>, i: nat, now: nat) {
    forall d | 0 <= d < |events| && events[d].peer == i && events[d].mark.Down? && NoUp(events, i, d, |events|) ::
      TenSecondsOver(events[d].at, now)
  }

  lemma HealthyIffExpired(events: seq<Event>, i: nat, now: nat)
    requires TimesOrdered(events)
    ensures Healthy(UntilAfter(events, i), now) <==> Expired(events, i, now)
  {
    var k := Last(events, i);
    if k >= 0 {
      if events[k].mark.Down? {
        assert NoUp(events, i, k, |events|);
        forall d | 0 <= d < |events| && events[d].peer == i
          ensures events[d].at <= events[k].at
        {
        }
      } else {
        forall d | 0 <= d < |events| && events[d].peer == i && events[d].mark.Down?
          ensures !NoUp(events, i, d, |events|)
        {
          assert d < k;
        }
      }
    }
  }

  /**
   * In every reachable pool a peer is healthy exactly when each mark-down since its last
   * mark-up is at least ten seconds old.
   */
  lemma HealthIsHistory(p: Pool, i: nat)
    requires Consistent(p) && i < |p.addrs|
    ensures Healthy(p.until[i], p.clock) <==> Expired(p.events, i, p.clock)
  {
    HealthyIffExpired(p.events, i, p.clock);
  }

  /**
   * The same in numbers, for the last mark of a peer: a mark-down at `at` keeps it down until
   * `at` + 10000 ms, or until the last reading of a 64-bit clock if that comes first.
   */
  lemma HealthInNumbers(p: Pool, i: nat, k: nat, now: nat)
    requires Consistent(p) && i < |p.addrs| && k < |p.events| && p.events[k].peer == i
    requires forall j | k < j < |p.events| :: p.events[j].peer != i
    ensures p.events[k].mark.Up? ==> Healthy(p.until[i], now)
    ensures p.events[k].mark.Down? ==>
              (Healthy(p.until[i], now) <==> now >= p.events[k].at + 10_000 || now >= 18_446_744_073_709_551_615)
  {
    assert Last(p.events, i) == k;
  }

  lemma UnmarkedIsHealthy(p: Pool, i: nat, now: nat)
    requires Consistent(p) && i < |p.addrs| && forall j | 0 <= j < |p.events| :: p.events[j].peer != i
    ensures Healthy(p.until[i], now)
  {
    assert Last(p.events, i) == -1;
  }

  /** The peer a pick returns is healthy when the pick ends, by its own history. */
  lemma PickedIsHealthy(p: Pool, i: nat, q: Pool)
    requires Consistent(p) && Picked(p, Some(i), q)
    ensures i < |p.addrs| && Healthy(p.until[i], q.clock) && Expired(q.events, i, q.clock)
  {
    HealthyIffExpired(p.events, i, q.clock);
  }

  // ---- Which peers a pick looks at ----

  ghost predicate Visits(start: nat, n: nat, i: nat)
    requires i < n
  {
    exists off | 0 <= off < n :: Slot(start, off, n) == i
  }

  /** The counter of a pick stays below 2^64 in every round, or wraps to where it would be anyway. */
  predicate RoundsAreSafe(start: nat, n: nat)
    requires n > 0
  {
    start + n <= U64_MAX + 1 || (U64_MAX + 1) % n == 0
  }

  lemma SafeRoundsVisit(start: nat, n: nat, i: nat)
    requires start <= U64_MAX && i < n <= U64_MAX && RoundsAreSafe(start, n)
    ensures Visits(start, n, i)
  {
    var off := RoundOf(start, n, i);
    if start + off > U64_MAX {
      WrapKeepsRemainder(start + off, n);
    }
    assert Slot(start, off, n) == i;
  }

  lemma RoundOf(start: nat, n: nat, i: nat) returns (off: nat)
    requires i < n
    ensures off < n && (start + off) % n == i
  {
    var q, r := start / n, start % n;
    assert start == q * n + r;
    if i >= r {
      off := i - r;
      Quotient(q * n + i, n, q, i);
    } else {
      off := i + n - r;
      assert (q + 1) * n == q * n + n;
      Quotient((q + 1) * n + i, n, q + 1, i);
    }
  }

  lemma WrapKeepsRemainder(x: nat, n: nat)
    requires U64_MAX < x <= U64_MAX + U64_MAX && n > 0 && (U64_MAX + 1) % n == 0
    ensures x % (U64_MAX + 1) % n == x % n
  {
    var w, k := (U64_MAX + 1) / n, x / n;
    assert U64_MAX + 1 == w * n && x == k * n + x % n;
    assert x - (U64_MAX + 1) == (k - w) * n + x % n;
    Quotient((k - w) * n + x % n, n, k - w, x % n);
  }

  /** The peer that a pick leaves out when its counter wraps around. */
  function Skipped(start: nat, n: nat): int
    requires start <= U64_MAX && n > 0
  {
    var m, r := U64_MAX + 1 - start, (U64_MAX + 1) % n;
    if m <= r then n - 1 else n - 1 - (m - r)
  }

  lemma WrappedRoundsSkip(start: nat, n: nat, off: nat)
    requires start <= U64_MAX && off < n <= U64_MAX && !RoundsAreSafe(start, n)
    ensures 0 <= Skipped(start, n) < n && Slot(start, off, n) != Skipped(start, n)
  {
    var m, r, q := U64_MAX + 1 - start, (U64_MAX + 1) % n, (U64_MAX + 1) / n;
    assert U64_MAX + 1 == q * n + r;
    assert 1 <= m < n && r >= 1;
    if off >= m {
      assert (start + off) % (U64_MAX + 1) == off - m;
      Quotient(off - m, n, 0, off - m);
    } else if r + off >= m {
      assert start + off == q * n + (r + off - m);
      Quotient(q * n + (r + off - m), n, q, r + off - m);
    } else {
      assert q >= 1;
      assert start + off == (q - 1) * n + (n + r + off - m) by {
        assert (q - 1) * n == q * n - n;
      }
      Quotient((q - 1) * n + (n + r + off - m), n, q - 1, n + r + off - m);
    }
  }

  /** A pick looks at every peer exactly when its rounds are safe. */
  lemma AllVisitedIffSafe(start: nat, n: nat)
    requires start <= U64_MAX && 0 < n <= U64_MAX
    ensures (forall i | 0 <= i < n :: Visits(start, n, i)) <==> RoundsAreSafe(start, n)
  {
    if RoundsAreSafe(start, n) {
      forall i | 0 <= i < n ensures Visits(start, n, i) {
        SafeRoundsVisit(start, n, i);
      }
    } else {
      var i := Skipped(start, n);
      forall off | 0 <= off < n ensures Slot(start, off, n) != i {
        WrappedRoundsSkip(start, n, off);
      }
      WrappedRoundsSkip(start, n, 0);
      assert !Visits(start, n, i);
    }
  }

  /** In safe rounds a pick that returns nothing has found every peer down. */
  lemma NothingPickedMeansAllDown(p: Pool, q: Pool)
    requires Consistent(p) && Picked(p, None, q)
    requires 0 < |p.addrs| <= U64_MAX && RoundsAreSafe(p.next, |p.addrs|)
    ensures forall i | 0 <= i < |p.addrs| :: !Healthy(p.until[i], p.clock) && !Expired(p.events, i, p.clock)
  {
    forall i | 0 <= i < |p.addrs| ensures !Healthy(p.until[i], p.clock) && !Expired(p.events, i, p.clock) {
      SafeRoundsVisit(p.next, |p.addrs|, i);
      HealthIsHistory(p, i);
    }
  }

  // ---- The records ----

  ghost predicate Record(events: seq<Event>, k: nat, i: nat, m: Mark) {
    k < |events| && events[k].peer == i && events[k].mark == m && events[k].logged
  }

  /** A mark-down that follows a mark-up has a "down" record on or before it and after the mark-up. */
  lemma {:induction false} DownAfterUpIsRecorded(p: Pool, i: nat, k: int, d: nat) returns (r: nat)
    requires Consistent(p) && -1 <= k < d < |p.events|
    requires k >= 0 ==> p.events[k].peer == i && p.events[k].mark.Up?
    requires p.events[d].peer == i && p.events[d].mark.Down?
    ensures k < r <= d && Record(p.events, r, i, Down)
    decreases d
  {
    assert LogRule(p.events, d);
    var e := Last(p.events[..d], i);
    if p.events[d].logged {
      r := d;
    } else {
      assert k >= 0 ==> p.events[..d][k].peer == i;
      assert e > k;
      r := DownAfterUpIsRecorded(p, i, k, e);
    }
  }

  /**
   * A record is written exactly when health changes: a mark-down that is recorded, or a mark-up
   * that is not, met a peer whose mark-downs had all run out by the end of the call; the other
   * two met a peer with a mark-down still running when the call began.
   */
  lemma RecordsTellHealth(p: Pool, k: nat)
    requires Consistent(p) && k < |p.events|
    ensures
      var e, past := p.events[k], p.events[..k];
      && (e.logged == e.mark.Down? ==> Expired(past, e.peer, e.at))
      && (e.logged == e.mark.Up? ==> !Expired(past, e.peer, e.from))
  {
    assert LogRule(p.events, k);
    var e, past := p.events[k], p.events[..k];
    HealthyIffExpired(past, e.peer, e.at);
    HealthyIffExpired(past, e.peer, e.from);
  }

  /** The records of a peer never show "up" first, and never "up" twice without a "down" between. */
  lemma UpRecordsAreSeparated(p: Pool, i: nat, k: int, l: nat) returns (r: nat)
    requires Consistent(p) && -1 <= k < l && Record(p.events, l, i, Up)
    requires k >= 0 ==> Record(p.events, k, i, Up)
    ensures k < r < l && Record(p.events, r, i, Down)
  {
    assert LogRule(p.events, l);
    var d := Last(p.events[..l], i);
    assert k >= 0 ==> p.events[..l][k].peer == i;
    r := DownAfterUpIsRecorded(p, i, k, d);
  }

  /**
   * After a "down" record and with no "up" record since: a mark-up, which then went
   * unrecorded, came only once the first timer had run out.
   */
  lemma {:induction false} SilentMarkUpsAreLate(p: Pool, i: nat, k: nat, m: nat)
    requires Consistent(p) && k <= m < |p.events| && Record(p.events, k, i, Down) && p.events[m].peer == i
    requires forall r | k < r <= m :: !Record(p.events, r, i, Up)
    ensures p.events[m].mark.Up? ==> TenSecondsOver(p.events[k].at, p.events[m].at)
    decreases m
  {
    if p.events[m].mark.Up? {
      assert LogRule(p.events, m);
      var e := Last(p.events[..m], i);
      assert p.events[..m][k].peer == i;
      assert !Record(p.events, m, i, Up);
      SilentMarkUpsAreLate(p, i, k, e);
      assert p.events[k].at <= p.events[e].at <= p.events[m].at;
    }
  }

  /** Two "down" records with no "up" record between are ten seconds apart. */
  lemma DownRecordsAreApart(p: Pool, i: nat, k: nat, l: nat)
    requires Consistent(p) && k < l && Record(p.events, k, i, Down) && Record(p.events, l, i, Down)
    requires forall r | k < r < l :: !Record(p.events, r, i, Up)
    ensures TenSecondsOver(p.events[k].at, p.events[l].at)
  {
    assert LogRule(p.events, l);
    var e := Last(p.events[..l], i);
    assert p.events[..l][k].peer == i;
    SilentMarkUpsAreLate(p, i, k, e);
  }
}
