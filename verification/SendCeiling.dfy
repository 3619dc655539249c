/** `mail.py`, `SendCeiling.take`: one rolling ceiling over all outgoing mail. */
module SendCeiling {
  import opened SlidingWindow

  /** One admitted send. */
  datatype Send = Send(at: int, priority: bool)

  datatype Request = Request(now: int, priority: bool)

  function Times(log: seq<Send>): seq<int> {
    if log == [] then [] else Times(log[..|log| - 1]) + [log[|log| - 1].at]
  }

  /** The times of the sends that did not ask for priority. */
  function OrdinaryTimes(log: seq<Send>): seq<int> {
    if log == [] then []
    else
      var last := log[|log| - 1];
      OrdinaryTimes(log[..|log| - 1]) + if last.priority then [] else [last.at]
  }

  function Limit(limit: nat, priority: bool): nat {
    if priority then limit else limit - limit / 4
  }

  /** The decision in terms of the sends already admitted: room in the window that ends now. */
  predicate Admits(limit: nat, window: nat, log: seq<Send>, r: Request) {
    CountAfter(Times(log), r.now - window) < Limit(limit, r.priority)
  }

  function Step(limit: nat, window: nat, log: seq<Send>, r: Request): seq<Send> {
    if Admits(limit, window, log, r) then log + [Send(r.now, r.priority)] else log
  }

  lemma CountInSnoc(log: seq<int>, t: int, lo: int, hi: int)
    ensures CountIn(log + [t], lo, hi) == CountIn(log, lo, hi) + if lo <= t < hi then 1 else 0
  {
    assert (log + [t])[..|log|] == log;
  }

  /** An admitted send counts from then on, under its own time, and a refused one never does. */
  lemma AdmittedIsCounted(limit: nat, window: nat, log: seq<Send>, r: Request, lo: int, hi: int)
    ensures CountIn(Times(Step(limit, window, log, r)), lo, hi)
         == CountIn(Times(log), lo, hi) + if Admits(limit, window, log, r) && lo <= r.now < hi then 1 else 0
  {
    hide Admits, CountIn, Times;
    TimesSnoc(log, Send(r.now, r.priority));
    CountInSnoc(Times(log), r.now, lo, hi);
  }

  /** The admitted sends of a run of requests. */
  function Admitted(limit: nat, window: nat, log: seq<Send>, run: seq<Request>): seq<Send>
    decreases |run|
  {
    if run == [] then log else Admitted(limit, window, Step(limit, window, log, run[0]), run[1..])
  }

  /** What every reachable log keeps. */
  predicate Capped(limit: nat, window: nat, log: seq<Send>) {
    && Rolling(Times(log), limit, window)
    && Rolling(OrdinaryTimes(log), Limit(limit, false), window)
  }

  lemma TimesSnoc(log: seq<Send>, s: Send)
    ensures Times(log + [s]) == Times(log) + [s.at]
    ensures OrdinaryTimes(log + [s]) == OrdinaryTimes(log) + if s.priority then [] else [s.at]
  {
    assert (log + [s])[..|log|] == log;
  }

  lemma {:induction false} OrdinaryAreSome(log: seq<Send>, cutoff: int)
    ensures CountAfter(OrdinaryTimes(log), cutoff) <= CountAfter(Times(log), cutoff)
  {
    if log != [] {
      var rest, last := log[..|log| - 1], log[|log| - 1];
      OrdinaryAreSome(rest, cutoff);
      assert log == rest + [last];
      TimesSnoc(rest, last);
      CountAfterSnoc(Times(rest), last.at, cutoff);
      CountAfterSnoc(OrdinaryTimes(rest), last.at, cutoff);
      assert OrdinaryTimes(rest) + [] == OrdinaryTimes(rest);
    }
  }

  lemma TakeKeepsCapped(limit: nat, window: nat, log: seq<Send>, r: Request)
    requires Capped(limit, window, log) && Admits(limit, window, log, r)
    ensures Capped(limit, window, log + [Send(r.now, r.priority)])
  {
    hide Times, OrdinaryTimes, Rolling, CountAfter;
    TimesSnoc(log, Send(r.now, r.priority));
    AdmitKeepsRolling(Times(log), limit, window, r.now);
    if r.priority {
      assert OrdinaryTimes(log) + [] == OrdinaryTimes(log);
    } else {
      OrdinaryAreSome(log, r.now - window);
      AdmitKeepsRolling(OrdinaryTimes(log), Limit(limit, false), window, r.now);
    }
  }

  lemma {:induction false} RunsStayCapped(limit: nat, window: nat, log: seq<Send>, run: seq<Request>)
    requires Capped(limit, window, log)
    ensures Capped(limit, window, Admitted(limit, window, log, run))
    decreases |run|
  {
    if run != [] {
      if Admits(limit, window, log, run[0]) {
        TakeKeepsCapped(limit, window, log, run[0]);
      }
      RunsStayCapped(limit, window, Step(limit, window, log, run[0]), run[1..]);
    }
  }

  /** Over every run, any span of one window holds at most `limit` admitted sends, and at
      most `limit - limit / 4` ordinary ones. */
  lemma CeilingHolds(limit: nat, window: nat, run: seq<Request>, lo: int)
    ensures var log := Admitted(limit, window, [], run);
            && CountIn(Times(log), lo, lo + window) <= limit
            && CountIn(OrdinaryTimes(log), lo, lo + window) <= limit - limit / 4
  {
    RunsStayCapped(limit, window, [], run);
    var log := Admitted(limit, window, [], run);
    RollingBoundsEverySpan(Times(log), limit, window, lo);
    RollingBoundsEverySpan(OrdinaryTimes(log), Limit(limit, false), window, lo);
  }

  /** Requests in clock order from `from` to `to`. */
  predicate InOrder(from: int, run: seq<Request>, to: int)
    decreases |run|
  {
    if run == [] then from <= to else from <= run[0].now && InOrder(run[0].now, run[1..], to)
  }

  lemma {:induction false} AdmittedUpTo(limit: nat, window: nat, log: seq<Send>, from: int, run: seq<Request>, to: int)
    requires UpTo(Times(log), from) && InOrder(from, run, to)
    ensures UpTo(Times(Admitted(limit, window, log, run)), to)
    decreases |run|
  {
    if run != [] {
      hide Times, Admits;
      TimesSnoc(log, Send(run[0].now, run[0].priority));
      AdmittedUpTo(limit, window, Step(limit, window, log, run[0]), run[0].now, run[1..], to);
    }
  }

  lemma AdmitsBySpan(limit: nat, window: nat, log: seq<Send>, now: int)
    requires UpTo(Times(log), now)
    ensures var recent := CountIn(Times(log), now - window + 1, now + 1);
            && (Admits(limit, window, log, Request(now, true)) <==> recent < limit)
            && (Admits(limit, window, log, Request(now, false)) <==> recent < limit - limit / 4)
  {
    AfterIsSpan(Times(log), now - window, now);
    hide Times, CountIn, CountAfter;
  }

  /** After any run in clock order, priority mail is admitted exactly while fewer than `limit` sends
      were in the last window, and other mail exactly while fewer than three quarters of it were. */
  lemma AdmittedExactlyWhen(limit: nat, window: nat, from: int, run: seq<Request>, now: int)
    requires InOrder(from, run, now)
    ensures var log := Admitted(limit, window, [], run);
            var recent := CountIn(Times(log), now - window + 1, now + 1);
            && (Admits(limit, window, log, Request(now, true)) <==> recent < limit)
            && (Admits(limit, window, log, Request(now, false)) <==> recent < limit - limit / 4)
  {
    assert Times([]) == [];
    hide Times, Admitted, Admits, CountIn, InOrder;
    AdmittedUpTo(limit, window, [], from, run, now);
    AdmitsBySpan(limit, window, Admitted(limit, window, [], run), now);
  }

  /** Ordinary requests only, in clock order between `from` and `to`. */
  predicate OrdinaryRun(from: int, run: seq<Request>, to: int)
    decreases |run|
  {
    if run == [] then from <= to
    else !run[0].priority && from <= run[0].now && OrdinaryRun(run[0].now, run[1..], to)
  }

  /** Ordinary requests alone never fill more than the ordinary share of the window. */
  lemma {:induction false} OrdinaryRunLeavesRoom(limit: nat, window: nat, log: seq<Send>, from: int,
                                                 run: seq<Request>, to: int)
    requires OrdinaryRun(from, run, to)
    requires CountAfter(Times(log), from - window) <= Limit(limit, false)
    ensures CountAfter(Times(Admitted(limit, window, log, run)), to - window) <= Limit(limit, false)
    decreases |run|
  {
    hide Times, CountAfter, Step, Limit;
    if run == [] {
      CountAfterShrinks(Times(log), from - window, to - window);
    } else {
      OrdinaryStepLeavesRoom(limit, window, log, from, run[0]);
      OrdinaryRunLeavesRoom(limit, window, Step(limit, window, log, run[0]), run[0].now, run[1..], to);
    }
  }

  lemma OrdinaryStepLeavesRoom(limit: nat, window: nat, log: seq<Send>, from: int, r: Request)
    requires !r.priority && from <= r.now
    requires CountAfter(Times(log), from - window) <= Limit(limit, false)
    ensures CountAfter(Times(Step(limit, window, log, r)), r.now - window) <= Limit(limit, false)
  {
    hide Times, OrdinaryTimes, CountAfter;
    CountAfterShrinks(Times(log), from - window, r.now - window);
    TimesSnoc(log, Send(r.now, r.priority));
    CountAfterSnoc(Times(log), r.now, r.now - window);
  }

  /** Priority requests only, in clock order from `from`. */
  predicate PriorityRun(from: int, run: seq<Request>)
    decreases |run|
  {
    run == [] || (run[0].priority && from <= run[0].now && PriorityRun(run[0].now, run[1..]))
  }

  /** Every request of the run is admitted. */
  predicate AllPass(limit: nat, window: nat, log: seq<Send>, run: seq<Request>)
    decreases |run|
  {
    run == [] || (
      && Admits(limit, window, log, run[0])
      && AllPass(limit, window, log + [Send(run[0].now, run[0].priority)], run[1..]))
  }

  /** One more priority send, while there is room for it, takes one place at most. */
  lemma PriorityTakesOne(limit: nat, window: nat, log: seq<Send>, from: int, r: Request)
    requires r.priority && from <= r.now && CountAfter(Times(log), from - window) < limit
    ensures Admits(limit, window, log, r)
    ensures CountAfter(Times(log + [Send(r.now, r.priority)]), r.now - window) <= CountAfter(Times(log), from - window) + 1
  {
    hide Times, OrdinaryTimes, CountAfter;
    CountAfterShrinks(Times(log), from - window, r.now - window);
    TimesSnoc(log, Send(r.now, r.priority));
    CountAfterSnoc(Times(log), r.now, r.now - window);
  }

  lemma {:induction false} PriorityRunPasses(limit: nat, window: nat, log: seq<Send>, from: int, run: seq<Request>)
    requires PriorityRun(from, run) && CountAfter(Times(log), from - window) + |run| <= limit
    ensures AllPass(limit, window, log, run)
    decreases |run|
  {
    if run != [] {
      hide Times, CountAfter, Admits;
      PriorityTakesOne(limit, window, log, from, run[0]);
      PriorityRunPasses(limit, window, log + [Send(run[0].now, run[0].priority)], run[0].now, run[1..]);
    }
  }

  lemma NothingCounted(cutoff: int)
    ensures CountAfter(Times([]), cutoff) == 0
  {
  }

  /** Headroom: after any run of ordinary requests, whatever they were answered, every later run of
      at most `limit / 4` priority requests passes whole, whenever they come. */
  lemma OrdinaryMailLeavesHeadroom(limit: nat, window: nat, run: seq<Request>, from: int, to: int, urgent: seq<Request>)
    requires OrdinaryRun(from, run, to) && PriorityRun(to, urgent) && |urgent| <= limit / 4
    ensures AllPass(limit, window, Admitted(limit, window, [], run), urgent)
  {
    hide Times, Admitted, CountAfter, OrdinaryRun, PriorityRun, AllPass;
    NothingCounted(from - window);
    OrdinaryRunLeavesRoom(limit, window, [], from, run, to);
    PriorityRunPasses(limit, window, Admitted(limit, window, [], run), to, urgent);
  }

  // ---- The class -----------------------------------------------------------------------

  /** The deque answers for the whole history of admitted sends. */
  ghost predicate Inv(window: nat, sentAt: seq<int>, log: seq<Send>, lastNow: int) {
    && Holds(sentAt, Times(log), lastNow - window)
    && (sentAt != [] ==> sentAt[|sentAt| - 1] <= lastNow)
  }

  lemma PruneKeepsInv(window: nat, sentAt: seq<int>, log: seq<Send>, lastNow: int, now: int)
    requires Inv(window, sentAt, log, lastNow) && lastNow <= now
    ensures var kept := Prune(sentAt, now - window);
            Inv(window, kept, log, now) && |kept| == CountAfter(Times(log), now - window)
  {
    PruneIsEnd(sentAt, now - window);
    PruneHolds(sentAt, Times(log), lastNow - window, now - window);
  }

  lemma AdmitKeepsInv(window: nat, kept: seq<int>, log: seq<Send>, r: Request)
    requires Inv(window, kept, log, r.now)
    ensures Inv(window, kept + [r.now], log + [Send(r.now, r.priority)], r.now)
  {
    var s := Send(r.now, r.priority);
    TimesSnoc(log, s);
    AppendHolds(kept, Times(log), r.now - window, r.now);
  }

  class Ceiling {
    const limit: nat
    const window: nat
    var sentAt: seq<int>
    ghost var log: seq<Send>
    ghost var lastNow: int

    ghost predicate Valid()
      reads this
    {
      Inv(window, sentAt, log, lastNow)
    }

    constructor (limit: nat, window: nat, ghost now: int)
      ensures Valid() && log == [] && lastNow == now
      ensures this.limit == limit && this.window == window
    {
      this.limit, this.window := limit, window;
      sentAt, log, lastNow := [], [], now;
    }

    /** One clock reading and the locked block after it; readings come in clock order. */
    method Take(now: int, priority: bool) returns (ok: bool)
      requires Valid() && lastNow <= now
      modifies this
      ensures Valid() && lastNow == now
      ensures ok == Admits(limit, window, old(log), Request(now, priority))
      ensures log == Step(limit, window, old(log), Request(now, priority))
    {
      hide Times, CountAfter, Ordered, Prune;
      var cutoff := now - window;
      var limit' := if priority then limit else limit - limit / 4;
      PruneKeepsInv(window, sentAt, log, lastNow, now);
      sentAt := DropOld(sentAt, cutoff);
      lastNow := now;
      if |sentAt| >= limit' {
        return false;
      }
      AdmitKeepsInv(window, sentAt, log, Request(now, priority));
      sentAt := sentAt + [now];
      log := log + [Send(now, priority)];
      return true;
    }
  }
}
