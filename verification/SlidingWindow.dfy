/** Rolling-window arithmetic shared by the mail ceiling, the sign-in budget,
    the message validator and the threat decider. */
module SlidingWindow {

  /** How many entries of `log` lie in the half-open span `[lo, hi)`. */
  function CountIn(log: seq<int>, lo: int, hi: int): (n: nat) {
    if log == [] then 0
    else
      var last := log[|log| - 1];
      CountIn(log[..|log| - 1], lo, hi) + if lo <= last < hi then 1 else 0
  }

  /** `SELECT COUNT(*) ... WHERE ts > cutoff` */
  function CountAfter(log: seq<int>, cutoff: int): (n: nat)
    ensures n <= |log|
  {
    if log == [] then 0
    else CountAfter(log[..|log| - 1], cutoff) + if log[|log| - 1] > cutoff then 1 else 0
  }

  predicate UpTo(log: seq<int>, last: int) { forall i | 0 <= i < |log| :: log[i] <= last }

  /** With nothing later than `now` in the log, counting after a cutoff is counting a span. */
  lemma {:induction false} AfterIsSpan(log: seq<int>, cutoff: int, now: int)
    requires UpTo(log, now)
    ensures CountAfter(log, cutoff) == CountIn(log, cutoff + 1, now + 1)
  {
    if log != [] {
      AfterIsSpan(log[..|log| - 1], cutoff, now);
    }
  }

  /** Each admission, when it was made, left at most `cap` entries in the window ending at it. */
  predicate Rolling(log: seq<int>, cap: nat, window: int) {
    log == [] || (
      && Rolling(log[..|log| - 1], cap, window)
      && CountAfter(log, log[|log| - 1] - window) <= cap)
  }

  lemma {:induction false} SpanIsAfter(log: seq<int>, lo: int, hi: int, cutoff: int)
    requires cutoff < lo
    ensures CountIn(log, lo, hi) <= CountAfter(log, cutoff)
  {
    if log != [] {
      SpanIsAfter(log[..|log| - 1], lo, hi, cutoff);
    }
  }

  /** Rolling admissions put at most `cap` entries in every span of one window. */
  lemma {:induction false} RollingBoundsEverySpan(log: seq<int>, cap: nat, window: nat, lo: int)
    requires Rolling(log, cap, window)
    ensures CountIn(log, lo, lo + window) <= cap
  {
    if log != [] {
      var last := log[|log| - 1];
      if lo <= last < lo + window {
        SpanIsAfter(log, lo, lo + window, last - window);
      } else {
        RollingBoundsEverySpan(log[..|log| - 1], cap, window, lo);
      }
    }
  }

  lemma CountAfterSnoc(log: seq<int>, t: int, cutoff: int)
    ensures CountAfter(log + [t], cutoff) == CountAfter(log, cutoff) + if t > cutoff then 1 else 0
  {
    assert (log + [t])[..|log|] == log;
  }

  /** Admitting an entry while fewer than `cap` recent ones exist keeps the bound. */
  lemma AdmitKeepsRolling(log: seq<int>, cap: nat, window: nat, now: int)
    requires Rolling(log, cap, window) && CountAfter(log, now - window) < cap
    ensures Rolling(log + [now], cap, window)
  {
    assert (log + [now])[..|log|] == log;
    CountAfterSnoc(log, now, now - window);
  }

  lemma {:induction false} CountAfterConcat(a: seq<int>, b: seq<int>, cutoff: int)
    ensures CountAfter(a + b, cutoff) == CountAfter(a, cutoff) + CountAfter(b, cutoff)
  {
    if b == [] {
      assert a + b == a;
    } else {
      var b' := b[..|b| - 1];
      CountAfterConcat(a, b', cutoff);
      assert (a + b)[..|a + b| - 1] == a + b';
    }
  }

  lemma {:induction false} CountAfterShrinks(log: seq<int>, cutoff: int, later: int)
    requires cutoff <= later
    ensures CountAfter(log, later) <= CountAfter(log, cutoff)
  {
    if log != [] {
      CountAfterShrinks(log[..|log| - 1], cutoff, later);
    }
  }

  // ---- A deque of admission times, pruned from the left ------------------------------

  predicate Ordered(q: seq<int>) {
    |q| < 2 || (q[0] <= q[1] && Ordered(q[1..]))
  }

  lemma {:induction false} OrderedSnoc(q: seq<int>, t: int)
    requires Ordered(q) && (q != [] ==> q[|q| - 1] <= t)
    ensures Ordered(q + [t])
  {
    if |q| >= 2 {
      OrderedSnoc(q[1..], t);
      assert (q + [t])[1..] == q[1..] + [t];
    }
  }

  lemma {:induction false} AllAfter(q: seq<int>, cutoff: int)
    requires Ordered(q) && (q != [] ==> q[0] > cutoff)
    ensures CountAfter(q, cutoff) == |q|
    decreases |q|
  {
    if q != [] {
      AllAfter(q[1..], cutoff);
      assert q == [q[0]] + q[1..];
      CountAfterConcat([q[0]], q[1..], cutoff);
      CountAfterSnoc([], q[0], cutoff);
    }
  }

  /** `while q and q[0] <= cutoff: q.popleft()` */
  function Prune(q: seq<int>, cutoff: int): seq<int> {
    if q != [] && q[0] <= cutoff then Prune(q[1..], cutoff) else q
  }

  lemma {:induction false} PruneIsEnd(q: seq<int>, cutoff: int)
    ensures var r := Prune(q, cutoff); r != [] ==> q != [] && r[|r| - 1] == q[|q| - 1]
  {
    if q != [] && q[0] <= cutoff {
      PruneIsEnd(q[1..], cutoff);
    }
  }

  /** The deque loop itself. */
  method DropOld(q: seq<int>, cutoff: int) returns (kept: seq<int>)
    ensures kept == Prune(q, cutoff)
  {
    kept := q;
    while kept != [] && kept[0] <= cutoff
      invariant Prune(kept, cutoff) == Prune(q, cutoff)
      decreases |kept|
    {
      kept := kept[1..];
    }
  }

  /** The deque `q` answers every question about the entries of `log` after `cutoff`. */
  ghost predicate Holds(q: seq<int>, log: seq<int>, cutoff: int) {
    Ordered(q) && forall c | c >= cutoff :: CountAfter(q, c) == CountAfter(log, c)
  }

  lemma CountAfterCons(q: seq<int>, cutoff: int)
    requires q != []
    ensures CountAfter(q, cutoff) == (if q[0] > cutoff then 1 else 0) + CountAfter(q[1..], cutoff)
  {
    assert q == [q[0]] + q[1..];
    CountAfterConcat([q[0]], q[1..], cutoff);
    CountAfterSnoc([], q[0], cutoff);
  }

  lemma {:induction false} PruneKeepsCounts(q: seq<int>, cutoff: int, c: int)
    requires cutoff <= c && Ordered(q)
    ensures Ordered(Prune(q, cutoff))
    ensures CountAfter(Prune(q, cutoff), c) == CountAfter(q, c)
    ensures |Prune(q, cutoff)| == CountAfter(q, cutoff)
    decreases |q|
  {
    if q != [] && q[0] <= cutoff {
      PruneKeepsCounts(q[1..], cutoff, c);
      CountAfterCons(q, c);
      CountAfterCons(q, cutoff);
      hide CountAfter;
    } else {
      AllAfter(q, cutoff);
    }
  }

  /** Pruning at a later cutoff leaves as many entries as `log` has after it. */
  lemma PruneHolds(q: seq<int>, log: seq<int>, before: int, cutoff: int)
    requires Holds(q, log, before) && before <= cutoff
    ensures Holds(Prune(q, cutoff), log, cutoff)
    ensures |Prune(q, cutoff)| == CountAfter(log, cutoff)
  {
    PruneKeepsCounts(q, cutoff, cutoff);
    forall c | c >= cutoff
      ensures CountAfter(Prune(q, cutoff), c) == CountAfter(log, c)
    {
      PruneKeepsCounts(q, cutoff, c);
      assert CountAfter(q, c) == CountAfter(log, c);
    }
  }

  lemma AppendHolds(q: seq<int>, log: seq<int>, cutoff: int, now: int)
    requires Holds(q, log, cutoff) && (q != [] ==> q[|q| - 1] <= now)
    ensures Holds(q + [now], log + [now], cutoff)
  {
    OrderedSnoc(q, now);
    forall c | c >= cutoff
      ensures CountAfter(q + [now], c) == CountAfter(log + [now], c)
    {
      CountAfterSnoc(q, now, c);
      CountAfterSnoc(log, now, c);
    }
  }
}
