/** `decider.py`, `ThreatVerdictCaller`: at most one assessment a window and 24 calls a day. */
module VerdictCaller {
  import opened Text
  import opened SlidingWindow

  const DAILY_WINDOW_S: nat := 86400
  const DAILY_CALL_CAP: nat := 24

  datatype Caller = Caller(calls: seq<int>, lastWindow: Option<int>)

  /** What the client answers to `submit`. */
  datatype Submitted = Started | Declined | Raised

  predicate WindowIsNew(c: Caller, window: int) {
    c.lastWindow == None || window > c.lastWindow.value
  }

  /** `assess` gets as far as calling `submit`. */
  predicate Submits(c: Caller, now: int, window: int) {
    WindowIsNew(c, window) && |Prune(c.calls, now - DAILY_WINDOW_S)| < DAILY_CALL_CAP
  }

  function Assess(c: Caller, now: int, window: int, s: Submitted): Caller {
    var kept := Prune(c.calls, now - DAILY_WINDOW_S);
    if !WindowIsNew(c, window) then c.(calls := kept)
    else Caller(if Submits(c, now, window) && s.Started? then kept + [now] else kept, Some(window))
  }

  datatype Call = Call(now: int, window: int, answer: Submitted)

  function Grown(c: Caller, log: seq<int>, r: Call): seq<int> {
    if Submits(c, r.now, r.window) && r.answer.Started? then log + [r.now] else log
  }

  /** The times of the calls a run starts. */
  function Starts(c: Caller, log: seq<int>, run: seq<Call>): seq<int>
    decreases |run|
  {
    if run == [] then log
    else
      var r := run[0];
      Starts(Assess(c, r.now, r.window, r.answer), Grown(c, log, r), run[1..])
  }

  predicate InClockOrder(last: int, run: seq<Call>)
    decreases |run|
  {
    run == [] || (last <= run[0].now && InClockOrder(run[0].now, run[1..]))
  }

  ghost predicate Inv(c: Caller, log: seq<int>, last: int) {
    && Holds(c.calls, log, last - DAILY_WINDOW_S)
    && (c.calls != [] ==> c.calls[|c.calls| - 1] <= last)
    && Rolling(log, DAILY_CALL_CAP, DAILY_WINDOW_S) && UpTo(log, last)
  }

  lemma AssessKeepsInv(c: Caller, log: seq<int>, last: int, r: Call)
    requires Inv(c, log, last) && last <= r.now
    ensures Inv(Assess(c, r.now, r.window, r.answer), Grown(c, log, r), r.now)
  {
    var cutoff := r.now - DAILY_WINDOW_S;
    hide Prune, CountAfter, Ordered, Rolling;
    PruneIsEnd(c.calls, cutoff);
    PruneHolds(c.calls, log, last - DAILY_WINDOW_S, cutoff);
    if Submits(c, r.now, r.window) && r.answer.Started? {
      AppendHolds(Prune(c.calls, cutoff), log, cutoff, r.now);
      AdmitKeepsRolling(log, DAILY_CALL_CAP, DAILY_WINDOW_S, r.now);
    }
  }

  lemma {:induction false} RunKeepsInv(c: Caller, log: seq<int>, last: int, run: seq<Call>)
    requires Inv(c, log, last) && InClockOrder(last, run)
    ensures Rolling(Starts(c, log, run), DAILY_CALL_CAP, DAILY_WINDOW_S)
    decreases |run|
  {
    if run != [] {
      var r := run[0];
      AssessKeepsInv(c, log, last, r);
      RunKeepsInv(Assess(c, r.now, r.window, r.answer), Grown(c, log, r), r.now, run[1..]);
    }
  }

  function After(c: Caller, run: seq<Call>): Caller
    decreases |run|
  {
    if run == [] then c else After(Assess(c, run[0].now, run[0].window, run[0].answer), run[1..])
  }

  /** The last window is the newest the run saw. */
  lemma {:induction false} NewAfterRun(c: Caller, run: seq<Call>, window: int)
    ensures WindowIsNew(After(c, run), window)
            <==> WindowIsNew(c, window) && forall i | 0 <= i < |run| :: run[i].window < window
    decreases |run|
  {
    if run != [] {
      var r := run[0];
      var c' := Assess(c, r.now, r.window, r.answer);
      NewAfterRun(c', run[1..], window);
      assert WindowIsNew(c', window) <==> WindowIsNew(c, window) && r.window < window;
      hide After, Assess, WindowIsNew;
      assert forall i | 0 < i < |run| :: run[i] == run[1..][i - 1];
      assert forall i | 0 <= i < |run[1..]| :: run[1..][i] == run[i + 1];
    }
  }

  /** The calls are those the run started. */
  lemma {:induction false} AfterKeepsInv(c: Caller, log: seq<int>, last: int, run: seq<Call>)
    requires Inv(c, log, last) && InClockOrder(last, run)
    ensures Inv(After(c, run), Starts(c, log, run), if run == [] then last else run[|run| - 1].now)
    decreases |run|
  {
    if run != [] {
      hide Inv, Assess, Grown;
      var r := run[0];
      AssessKeepsInv(c, log, last, r);
      AfterKeepsInv(Assess(c, r.now, r.window, r.answer), Grown(c, log, r), r.now, run[1..]);
    }
  }

  /** After any run in clock order the client is asked exactly about a window newer than all before,
      while fewer than 24 calls started in the last 24 hours. */
  lemma SubmitsExactlyWhen(start: int, run: seq<Call>, now: int, window: int)
    requires InClockOrder(start, run) && (if run == [] then start else run[|run| - 1].now) <= now
    ensures Submits(After(Caller([], None), run), now, window)
            <==> && (forall i | 0 <= i < |run| :: run[i].window < window)
                 && CountIn(Starts(Caller([], None), [], run), now - 86400 + 1, now + 1) < 24
  {
    var none := Caller([], None);
    var end := if run == [] then start else run[|run| - 1].now;
    AfterKeepsInv(none, [], start, run);
    NewAfterRun(none, run, window);
    var c, log := After(none, run), Starts(none, [], run);
    PruneHolds(c.calls, log, end - DAILY_WINDOW_S, now - DAILY_WINDOW_S);
    AfterIsSpan(log, now - DAILY_WINDOW_S, now);
    hide After, Starts, Inv, CountIn;
  }

  /** In clock order, at most 24 calls start in any 24 hours. */
  lemma DailyCapHolds(start: int, run: seq<Call>, lo: int)
    requires InClockOrder(start, run)
    ensures CountIn(Starts(Caller([], None), [], run), lo, lo + DAILY_WINDOW_S) <= DAILY_CALL_CAP
  {
    RunKeepsInv(Caller([], None), [], start, run);
    RollingBoundsEverySpan(Starts(Caller([], None), [], run), DAILY_CALL_CAP, DAILY_WINDOW_S, lo);
  }

  /** The windows a run asks the client about, in order. */
  function Asked(c: Caller, run: seq<Call>): seq<int>
    decreases |run|
  {
    if run == [] then []
    else
      var r := run[0];
      (if Submits(c, r.now, r.window) then [r.window] else [])
      + Asked(Assess(c, r.now, r.window, r.answer), run[1..])
  }

  predicate AllAfter(c: Caller, windows: seq<int>) {
    c.lastWindow.Some? ==> forall i | 0 <= i < |windows| :: windows[i] > c.lastWindow.value
  }

  predicate Increasing(windows: seq<int>) {
    windows != [] ==>
      Increasing(windows[1..]) && forall i | 0 <= i < |windows[1..]| :: windows[1..][i] > windows[0]
  }

  /** No window is asked about twice, nor after a later one, whatever the client answers. */
  lemma {:induction false} EachWindowAskedOnce(c: Caller, run: seq<Call>)
    ensures AllAfter(c, Asked(c, run)) && Increasing(Asked(c, run))
    decreases |run|
  {
    if run != [] {
      var r := run[0];
      var c' := Assess(c, r.now, r.window, r.answer);
      EachWindowAskedOnce(c', run[1..]);
      var later := Asked(c', run[1..]);
      if Submits(c, r.now, r.window) {
        assert ([r.window] + later)[1..] == later;
      } else {
        assert [] + later == later;
      }
    }
  }

  class ThreatVerdictCaller {
    var calls: seq<int>
    var lastWindow: Option<int>

    function Fields(): Caller
      reads this
    {
      Caller(calls, lastWindow)
    }

    constructor ()
      ensures Fields() == Caller([], None)
    {
      calls, lastWindow := [], None;
    }

    /** `assess`, given what the client's `submit` would answer; a raise leaves the state as
        it was when the call was made. */
    method AssessWindow(now: int, window: int, s: Submitted) returns (asked: bool, started: bool)
      modifies this
      ensures Fields() == Assess(old(Fields()), now, window, s)
      ensures asked == Submits(old(Fields()), now, window) && started == (asked && s.Started?)
    {
      calls := DropOld(calls, now - DAILY_WINDOW_S);
      if lastWindow.Some? && window <= lastWindow.value {
        return false, false;
      }
      lastWindow := Some(window);
      if |calls| >= DAILY_CALL_CAP {
        return false, false;
      }
      if s.Started? {
        calls := calls + [now];
      }
      return true, s.Started?;
    }
  }
}
