/** How often round robin chooses each peer while the set of healthy peers stays the same. */
module Shares {
  import opened Wrappers
  import opened PoolSteps
  import opened Arithmetic

  /** Healthy peers; at least one. */
  predicate SomeUp(up: seq<bool>) {
    exists i | 0 <= i < |up| :: up[i]
  }

  /** Positions are counted on for ever: position `c` is peer `c % |up|`. */
  predicate UpAt(up: seq<bool>, c: nat)
    requires up != []
  {
    up[c % |up|]
  }

  /** The first position from `c` on, but before `limit`, whose peer is healthy; or `limit`. */
  function FirstUp(up: seq<bool>, c: nat, limit: nat): (f: nat)
    requires up != [] && c <= limit
    ensures c <= f <= limit && (f < limit ==> UpAt(up, f))
    ensures forall d | c <= d < f :: !UpAt(up, d)
    decreases limit - c
  {
    if c == limit || UpAt(up, c) then c else FirstUp(up, c + 1, limit)
  }

  /** The peer that a pick with counter `k` chooses. */
  function Choice(up: seq<bool>, k: nat): nat
    requires up != []
  {
    FirstUp(up, k, k + |up|) % |up|
  }

  /** How many of the `max` positions right before `c` are down, without interruption. */
  function DownBefore(up: seq<bool>, c: nat, max: nat): (g: nat)
    requires up != [] && max <= c
    ensures g <= max && (g < max ==> UpAt(up, c - 1 - g))
    ensures forall d | c - g <= d < c :: !UpAt(up, d)
    decreases max
  {
    if max == 0 || UpAt(up, c - 1) then 0 else 1 + DownBefore(up, c - 1, max - 1)
  }

  /** Consecutive down peers immediately before peer `i`, cyclically. */
  function Gap(up: seq<bool>, i: nat): nat
    requires i < |up|
  {
    DownBefore(up, i + |up|, |up| - 1)
  }

  /** Picks among the `len` starting at `s`, `s + 1`, … that choose peer `i`. */
  function Count(up: seq<bool>, i: nat, s: nat, len: nat): nat
    requires up != []
  {
    if len == 0 then 0 else Count(up, i, s, len - 1) + if Choice(up, s + len - 1) == i then 1 else 0
  }

  lemma Periodic(k: nat, n: nat)
    requires n > 0
    ensures (k + n) % n == k % n
  {
    assert k == k / n * n + k % n;
    assert k + n == (k / n + 1) * n + k % n;
    Quotient(k + n, n, k / n + 1, k % n);
  }

  lemma {:induction false} FirstUpPeriodic(up: seq<bool>, c: nat, limit: nat)
    requires up != [] && c <= limit
    ensures FirstUp(up, c + |up|, limit + |up|) == FirstUp(up, c, limit) + |up|
    decreases limit - c
  {
    Periodic(c, |up|);
    if c < limit && !UpAt(up, c) {
      FirstUpPeriodic(up, c + 1, limit);
    }
  }

  lemma ChoicePeriodic(up: seq<bool>, k: nat)
    requires up != []
    ensures Choice(up, k + |up|) == Choice(up, k)
  {
    FirstUpPeriodic(up, k, k + |up|);
    Periodic(FirstUp(up, k, k + |up|), |up|);
  }

  lemma {:induction false} CountSplit(up: seq<bool>, i: nat, s: nat, a: nat, b: nat)
    requires up != []
    ensures Count(up, i, s, a + b) == Count(up, i, s, a) + Count(up, i, s + a, b)
    decreases b
  {
    if b > 0 {
      CountSplit(up, i, s, a, b - 1);
    }
  }

  /** The count over |up| consecutive picks does not depend on where they start. */
  lemma {:induction false} WindowsAgree(up: seq<bool>, i: nat, s: nat, t: nat)
    requires up != [] && s <= t
    ensures Count(up, i, s, |up|) == Count(up, i, t, |up|)
    decreases t - s
  {
    if s < t {
      CountSplit(up, i, s, 1, |up|);
      ChoicePeriodic(up, s);
      WindowsAgree(up, i, s + 1, t);
    }
  }

  lemma {:induction false} CountConstant(up: seq<bool>, i: nat, s: nat, len: nat, chosen: bool)
    requires up != [] && forall k | s <= k < s + len :: (Choice(up, k) == i) == chosen
    ensures Count(up, i, s, len) == if chosen then len else 0
    decreases len
  {
    if len > 0 {
      CountConstant(up, i, s, len - 1, chosen);
    }
  }

  lemma SameResidue(c: nat, i: nat, n: nat)
    requires i < c < i + n && i < n
    ensures c % n != i
  {
    if c < n {
      Quotient(c, n, 0, c);
    } else {
      Quotient(c, n, 1, c - n);
    }
  }

  /** A pick that starts less than |up| places before peer `i` chooses it exactly when all places between are down. */
  lemma ChosenWithinGap(up: seq<bool>, i: nat, k: nat)
    requires i < |up| && up[i] && i < k <= i + |up|
    ensures Choice(up, k) == i <==> i + |up| - k <= Gap(up, i)
  {
    var n := |up|;
    var f := FirstUp(up, k, k + n);
    Quotient(i + n, n, 1, i);
    assert UpAt(up, i + n);
    assert f <= i + n;
    if f < i + n {
      SameResidue(f, i, n);
      assert i + n - k > Gap(up, i);
    } else {
      assert i + n - k <= Gap(up, i) by {
        assert UpAt(up, i + n - 1 - Gap(up, i)) || Gap(up, i) == n - 1;
      }
    }
  }

  lemma ShareOfHealthy(up: seq<bool>, i: nat)
    requires i < |up| && up[i]
    ensures Count(up, i, i + 1, |up|) == 1 + Gap(up, i)
  {
    hide Choice, UpAt;
    var n, gap := |up|, Gap(up, i);
    CountSplit(up, i, i + 1, n - 1 - gap, 1 + gap);
    forall k | i + 1 <= k < i + n - gap ensures Choice(up, k) != i {
      ChosenWithinGap(up, i, k);
    }
    CountConstant(up, i, i + 1, n - 1 - gap, false);
    forall k | i + n - gap <= k < i + n + 1 ensures Choice(up, k) == i {
      ChosenWithinGap(up, i, k);
    }
    CountConstant(up, i, i + n - gap, 1 + gap, true);
  }

  /** In |up| consecutive picks a healthy peer is chosen once, and once more for each down peer right before it. */
  lemma SharesAreExact(up: seq<bool>, i: nat, s: nat)
    requires i < |up| && SomeUp(up)
    ensures Count(up, i, s, |up|) == if up[i] then 1 + Gap(up, i) else 0
  {
    hide Choice, Gap;
    if up[i] {
      ShareOfHealthy(up, i);
      if s <= i + 1 {
        WindowsAgree(up, i, s, i + 1);
      } else {
        WindowsAgree(up, i, i + 1, s);
      }
    } else {
      forall k | s <= k < s + |up| ensures Choice(up, k) != i {
        ChoiceIsUp(up, k);
      }
      CountConstant(up, i, s, |up|, false);
    }
  }

  lemma ChoiceIsUp(up: seq<bool>, k: nat)
    requires SomeUp(up)
    ensures Choice(up, k) < |up| && up[Choice(up, k)] && FirstUp(up, k, k + |up|) < k + |up|
  {
    var i :| 0 <= i < |up| && up[i];
    var off := RoundOf(k, |up|, i);
    assert UpAt(up, k + off);
  }

  function SumOfCounts(up: seq<bool>, m: nat, s: nat, len: nat): nat
    requires up != []
  {
    if m == 0 then 0 else SumOfCounts(up, m - 1, s, len) + Count(up, m - 1, s, len)
  }

  lemma {:induction false} CountsGrow(up: seq<bool>, m: nat, s: nat, len: nat)
    requires up != []
    ensures SumOfCounts(up, m, s, len + 1) == SumOfCounts(up, m, s, len) + if Choice(up, s + len) < m then 1 else 0
    decreases m
  {
    if m > 0 {
      CountsGrow(up, m - 1, s, len);
    }
  }

  /** No pick is lost: the shares of all peers add up to the number of picks. */
  lemma {:induction false} SharesAddUp(up: seq<bool>, s: nat, len: nat)
    requires up != []
    ensures SumOfCounts(up, |up|, s, len) == len
    decreases len
  {
    if len == 0 {
      NoCounts(up, |up|, s);
    } else {
      SharesAddUp(up, s, len - 1);
      CountsGrow(up, |up|, s, len - 1);
    }
  }

  lemma {:induction false} NoCounts(up: seq<bool>, m: nat, s: nat)
    requires up != []
    ensures SumOfCounts(up, m, s, 0) == 0
    decreases m
  {
    if m > 0 {
      NoCounts(up, m - 1, s);
    }
  }

  lemma OncePerRound(up: seq<bool>, i: nat, s: nat)
    requires i < |up| && forall j | 0 <= j < |up| :: up[j]
    ensures Count(up, i, s, |up|) == 1
  {
    hide Choice, Count;
    assert up[i] && UpAt(up, i + |up| - 1);
    SharesAreExact(up, i, s);
  }

  /** With every peer healthy, any number of consecutive picks is divided as evenly as it can be. */
  lemma {:induction false} AllUpIsFair(up: seq<bool>, i: nat, s: nat, len: nat)
    requires i < |up| && forall j | 0 <= j < |up| :: up[j]
    ensures len / |up| <= Count(up, i, s, len) <= (len + |up| - 1) / |up|
    decreases len
  {
    hide Choice, Count;
    var n := |up|;
    OncePerRound(up, i, s);
    if len == 0 {
      NoneCounted(up, i, s);
    } else if len < n {
      CountSplit(up, i, s, len, n - len);
      Quotient(len, n, 0, len);
      Quotient(len + n - 1, n, 1, len - 1);
    } else {
      CountSplit(up, i, s, n, len - n);
      AllUpIsFair(up, i, s + n, len - n);
      OneMore(len - n, n);
      OneMore(len - 1, n);
    }
  }

  lemma NoneCounted(up: seq<bool>, i: nat, s: nat)
    requires up != []
    ensures Count(up, i, s, 0) == 0
  {
  }

  lemma OneMore(x: nat, n: nat)
    requires n > 0
    ensures (x + n) / n == x / n + 1
  {
    assert x == x / n * n + x % n;
    assert x + n == (x / n + 1) * n + x % n;
    Quotient(x + n, n, x / n + 1, x % n);
  }

  // ---- The same about real picks ----

  /** From the clock of `p` to that of `q` the healthy peers of `p` are those of `up`. */
  ghost predicate HealthStays(p: Pool, q: Pool, up: seq<bool>) {
    && |up| == |p.addrs| == |p.until| && SomeUp(up)
    && forall i | 0 <= i < |up| :: Healthy(p.until[i], if up[i] then p.clock else q.clock) == up[i]
  }

  lemma HealthOfRound(p: Pool, q: Pool, up: seq<bool>, off: nat)
    requires HealthStays(p, q, up) && off < |up| <= U64_MAX && p.next <= U64_MAX && RoundsAreSafe(p.next, |up|)
    ensures
      var slot := Slot(p.next, off, |up|);
      slot == (p.next + off) % |up|
      && if UpAt(up, p.next + off) then Healthy(p.until[slot], p.clock) else !Healthy(p.until[slot], q.clock)
  {
    SlotIsPosition(p.next, off, |up|);
  }

  lemma PickIsChoice(p: Pool, r: Option<nat>, q: Pool, up: seq<bool>)
    requires |p.addrs| == |p.until| && Picked(p, r, q) && HealthStays(p, q, up)
    requires p.next <= U64_MAX && |up| <= U64_MAX && RoundsAreSafe(p.next, |up|)
    ensures r == Some(Choice(up, p.next))
  {
    hide Slot, UpAt, HealthStays, SomeUp, RoundsAreSafe;
    var n := |p.addrs|;
    assert n == |up| && SomeUp(up) by { SizeOfHealth(p, q, up); }
    ChoiceIsUp(up, p.next);
    var f := FirstUp(up, p.next, p.next + n);
    HealthOfRound(p, q, up, f - p.next);
    if r.Some? {
      var off :| 0 <= off < n && Slot(p.next, off, n) == r.value && FoundAt(p, off, q.clock);
      HealthOfRound(p, q, up, off);
      assert f <= p.next + off;
      assert f - p.next == off;
    }
  }

  lemma SizeOfHealth(p: Pool, q: Pool, up: seq<bool>)
    requires HealthStays(p, q, up)
    ensures |up| == |p.addrs| && SomeUp(up)
  {
  }

  lemma SlotIsPosition(start: nat, off: nat, n: nat)
    requires off < n <= U64_MAX && start <= U64_MAX && RoundsAreSafe(start, n)
    ensures Slot(start, off, n) == (start + off) % n
  {
    if start + off > U64_MAX {
      WrapKeepsRemainder(start + off, n);
    } else {
      Quotient(start + off, U64_MAX + 1, 0, start + off);
    }
  }

  // ---- Picks among everything else ----

  /** What happens to a pool: a pick, with the peer it chose, or anything else. */
  datatype Op = Choose(peer: Option<nat>) | Aside

  ghost predicate Happens(p: Pool, op: Op, q: Pool)
    requires |p.addrs| == |p.until|
  {
    match op
    case Choose(r) => Picked(p, r, q)
    case Aside => Ticked(p, q) || exists a, m :: Marked(p, a, m, q)
  }

  /** A run of picks, marks and clock steps in any order, in which every pick meets the healthy peers `up`. */
  ghost predicate Traffic(run: seq<Pool>, ops: seq<Op>, up: seq<bool>) {
    && |run| == |ops| + 1 && up != [] && run[0].next <= U64_MAX
    && forall k | 0 <= k < |ops| ::
         |run[k].addrs| == |run[k].until| && Happens(run[k], ops[k], run[k + 1])
         && (ops[k].Choose? ==> HealthStays(run[k], run[k + 1], up))
  }

  function PickCount(ops: seq<Op>): nat {
    if ops == [] then 0
    else PickCount(ops[..|ops| - 1]) + if ops[|ops| - 1].Choose? then 1 else 0
  }

  /** How many picks chose peer `i`. */
  function Occurrences(ops: seq<Op>, i: nat): nat {
    if ops == [] then 0
    else Occurrences(ops[..|ops| - 1], i) + if ops[|ops| - 1] == Choose(Some(i)) then 1 else 0
  }

  /** The counter stays below 2^64 in all rounds of `len` picks, or wraps harmlessly. */
  predicate PicksAreSafe(start: nat, len: nat, n: nat)
    requires n > 0
  {
    len > 0 ==> RoundsAreSafe(start + len - 1, n)
  }

  lemma OnlyPicksCount(p: Pool, op: Op, q: Pool)
    requires |p.addrs| == |p.until| && Happens(p, op, q) && p.next <= U64_MAX && (op.Choose? ==> p.addrs != [])
    ensures q.next == if op.Choose? then (p.next + 1) % (U64_MAX + 1) else p.next
  {
  }

  /** Marks and clock steps leave the pick counter alone. */
  lemma {:induction false} CounterCounts(run: seq<Pool>, ops: seq<Op>, up: seq<bool>)
    requires Traffic(run, ops, up)
    ensures run[|ops|].next == (run[0].next + PickCount(ops)) % (U64_MAX + 1)
    decreases |ops|
  {
    hide Happens, HealthStays;
    var n := |ops| - 1;
    if ops == [] {
      Quotient(run[0].next, U64_MAX + 1, 0, run[0].next);
    } else {
      assert Traffic(run[..n + 1], ops[..n], up);
      CounterCounts(run[..n + 1], ops[..n], up);
      if ops[n].Choose? {
        SizeOfHealth(run[n], run[n + 1], up);
      }
      OnlyPicksCount(run[n], ops[n], run[n + 1]);
      NextOfSum(run[0].next + PickCount(ops[..n]), U64_MAX + 1);
    }
  }

  lemma NextOfSum(x: nat, w: nat)
    requires w > 0
    ensures (x % w + 1) % w == (x + 1) % w
  {
    var q, r := x / w, x % w;
    assert x == q * w + r;
    if r + 1 < w {
      Quotient(x + 1, w, q, r + 1);
      Quotient(r + 1, w, 0, r + 1);
    } else {
      assert (q + 1) * w == q * w + w;
      Quotient(x + 1, w, q + 1, 0);
      Quotient(r + 1, w, 1, 0);
    }
  }

  lemma {:induction false} ChoiceRepeats(up: seq<bool>, k: nat, m: nat)
    requires up != []
    ensures Choice(up, k + m * |up|) == Choice(up, k)
    decreases m
  {
    hide Choice;
    if m > 0 {
      ChoiceRepeats(up, k, m - 1);
      ChoicePeriodic(up, k + (m - 1) * |up|);
      assert m * |up| == (m - 1) * |up| + |up|;
    }
  }

  /** A counter that wraps harmlessly chooses as if it had not wrapped. */
  lemma ChoiceOfWrapped(up: seq<bool>, x: nat)
    requires up != [] && (x + |up| <= U64_MAX + 1 || (U64_MAX + 1) % |up| == 0)
    ensures Choice(up, x % (U64_MAX + 1)) == Choice(up, x)
  {
    hide Choice;
    var w, n := U64_MAX + 1, |up|;
    if x <= U64_MAX {
      Quotient(x, w, 0, x);
    } else {
      var q, m := x / w, w / n;
      assert x == x % w + q * w && w == m * n;
      assert q * w == (q * m) * n;
      ChoiceRepeats(up, x % w, q * m);
    }
  }

  lemma WrappedRoundsAreSafe(x: nat, n: nat)
    requires n > 0 && RoundsAreSafe(x, n)
    ensures RoundsAreSafe(x % (U64_MAX + 1), n)
  {
  }

  /** The picks of a run choose as an undisturbed round robin does. */
  lemma {:induction false} PicksAreChoices(run: seq<Pool>, ops: seq<Op>, up: seq<bool>, i: nat)
    requires Traffic(run, ops, up) && |up| <= U64_MAX && PicksAreSafe(run[0].next, PickCount(ops), |up|)
    ensures Occurrences(ops, i) == Count(up, i, run[0].next, PickCount(ops))
    decreases |ops|
  {
    hide Choice, HealthStays, Picked;
    var n := |ops| - 1;
    if ops != [] {
      var run', ops' := run[..n + 1], ops[..n];
      assert Traffic(run', ops', up);
      PicksAreChoices(run', ops', up, i);
      CounterCounts(run', ops', up);
      assert Happens(run[n], ops[n], run[n + 1]);
      if ops[n].Choose? {
        var x := run[0].next + PickCount(ops');
        WrappedRoundsAreSafe(x, |up|);
        PickIsChoice(run[n], ops[n].peer, run[n + 1], up);
        ChoiceOfWrapped(up, x);
      }
    }
  }

  /**
   * Exact shares of the picks of a pool: while the picks meet the same healthy peers, each of
   * these has its share of them, whatever marks and readings of the clock come between.
   */
  lemma PicksAreSharedExactly(run: seq<Pool>, ops: seq<Op>, up: seq<bool>, i: nat)
    requires Traffic(run, ops, up) && SomeUp(up) && i < |up| <= U64_MAX
    requires PicksAreSafe(run[0].next, PickCount(ops), |up|)
    ensures PickCount(ops) == |up| ==> Occurrences(ops, i) == if up[i] then 1 + Gap(up, i) else 0
    ensures (forall j | 0 <= j < |up| :: up[j]) ==>
              PickCount(ops) / |up| <= Occurrences(ops, i) <= (PickCount(ops) + |up| - 1) / |up|
  {
    hide PicksAreSafe, Count, Gap;
    var start := run[0].next;
    PicksAreChoices(run, ops, up, i);
    SharesAreExact(up, i, start);
    if forall j | 0 <= j < |up| :: up[j] {
      AllUpIsFair(up, i, start, PickCount(ops));
    }
  }

  // ---- When the counter may wrap ----

  lemma {:induction false} AllUpChoosesSlots(run: seq<Pool>, ops: seq<Op>, up: seq<bool>, i: nat)
    requires Traffic(run, ops, up) && forall j | 0 <= j < |up| :: up[j]
    ensures Occurrences(ops, i) > 0 <==> exists off | 0 <= off < PickCount(ops) :: Slot(run[0].next, off, |up|) == i
    decreases |ops|
  {
    hide Picked;
    var n := |ops| - 1;
    if ops != [] {
      var run', ops' := run[..n + 1], ops[..n];
      assert Traffic(run', ops', up);
      AllUpChoosesSlots(run', ops', up, i);
      assert Happens(run[n], ops[n], run[n + 1]);
      if ops[n].Choose? {
        CounterCounts(run', ops', up);
        AllUpPick(run[n], ops[n].peer, run[n + 1], up);
        assert ops[n].peer == Some(Slot(run[0].next, PickCount(ops'), |up|));
      }
    }
  }

  lemma AllUpPick(p: Pool, r: Option<nat>, q: Pool, up: seq<bool>)
    requires |p.addrs| == |p.until| && Picked(p, r, q) && HealthStays(p, q, up) && forall j | 0 <= j < |up| :: up[j]
    requires p.next <= U64_MAX
    ensures r == Some(p.next % |up|)
  {
    var n := |up|;
    Quotient(p.next, U64_MAX + 1, 0, p.next);
    var first := Slot(p.next, 0, n);
    assert first == p.next % n && Healthy(p.until[first], p.clock);
    if r.Some? {
      var off: nat :| off < n && Slot(p.next, off, n) == r.value && FoundAt(p, off, q.clock);
      assert off == 0;
    }
  }

  /**
   * With all n peers healthy, n picks choose every peer exactly when the counter does not wrap
   * within them, or n divides 2^64.
   */
  lemma EveryPeerIsChosenIffSafe(run: seq<Pool>, ops: seq<Op>, up: seq<bool>)
    requires Traffic(run, ops, up) && (forall j | 0 <= j < |up| :: up[j])
    requires PickCount(ops) == |up| <= U64_MAX
    ensures (forall i | 0 <= i < |up| :: Occurrences(ops, i) > 0) <==> RoundsAreSafe(run[0].next, |up|)
  {
    hide Slot;
    AllVisitedIffSafe(run[0].next, |up|);
    forall i | 0 <= i < |up| ensures Occurrences(ops, i) > 0 <==> Visits(run[0].next, |up|, i) {
      AllUpChoosesSlots(run, ops, up, i);
    }
    if !RoundsAreSafe(run[0].next, |up|) {
      var i :| 0 <= i < |up| && !Visits(run[0].next, |up|, i);
      assert Occurrences(ops, i) == 0;
    }
  }
}
