/** The sign-in budget over whole runs of the guest store: any calls on any table, by any email,
    with sweeps at any time. What stands is read off the calls and the store's own answers. */
module StoredBudget {
  import opened SlidingWindow
  import A = AttemptRows
  import B = SigninBudget
  import R = RetentionSweep

  /** What one answered call makes of the history of `email`. */
  function Follow(b: B.Budget, c: R.Call, answer: R.Answer, email: string): B.Budget {
    if !c.op.AttemptOp? then b
    else
      match c.op.a
      case TakeBudget(e) =>
        if e != email then b
        else if answer == R.Attempt(A.Decision(true)) then B.Admit(b, c.now) else B.Refuse(b, c.now)
      case Record(kind, key) => if kind == A.SigninEmail && key == A.ByEmail(email) then B.Noted(b, c.now) else b
      case Unrecord(kind, key) => if kind == A.SigninEmail && key == A.ByEmail(email) then B.Refunded(b) else b
      case EraseEmail(e) => if e == email then b.(rows := []) else b
      case Count(_, _, _) => b
  }

  /** The admissions of `email` that stand after the calls, and all its refusals. */
  function History(b: B.Budget, calls: seq<R.Call>, answers: seq<R.Answer>, email: string): B.Budget
    decreases |calls|
  {
    if calls == [] || answers == [] then b
    else History(Follow(b, calls[0], answers[0], email), calls[1..], answers[1..], email)
  }

  function EventsOf(c: R.Call, email: string): seq<B.Event> {
    if c.op.AttemptOp? then B.EventOf(c.now, c.op.a, email) else []
  }

  function Events(calls: seq<R.Call>, email: string): seq<B.Event> {
    if calls == [] then [] else EventsOf(calls[0], email) + Events(calls[1..], email)
  }

  /** A true answer makes the history take the budget's own step. */
  lemma FollowIsStep(db: R.Db, b: B.Budget, c: R.Call, email: string)
    requires B.Stores(db.attempts, email, b) && !c.op.SweepAll?
    ensures Follow(b, c, R.Apply(db, c.now, c.op).1, email) == B.Run(b, EventsOf(c, email))
    ensures B.Stores(R.Apply(db, c.now, c.op).0.attempts, email, B.Run(b, EventsOf(c, email)))
  {
    hide B.Stores, B.Admits, B.Admit, B.Refuse, B.Noted, B.Refunded;
    if c.op.AttemptOp? {
      B.OpRefines(db.attempts, email, b, c.now, c.op.a);
      B.OneEvent(b, c.now, c.op.a, email);
    }
  }

  lemma EventsAreFew(c: R.Call, email: string)
    ensures |EventsOf(c, email)| <= 1
  {
  }

  lemma RunAppend(b: B.Budget, first: seq<B.Event>, rest: seq<B.Event>)
    requires |first| <= 1
    ensures B.Run(b, first + rest) == B.Run(B.Run(b, first), rest)
  {
    hide B.Step;
    if first == [] {
      assert first + rest == rest;
    } else {
      assert (first + rest)[1..] == rest && first[1..] == [];
    }
  }

  lemma {:induction false} HistoryIsRun(db: R.Db, b: B.Budget, calls: seq<R.Call>, email: string)
    requires B.Stores(db.attempts, email, b) && R.NoSweeps(calls)
    ensures History(b, calls, R.Answers(db, calls), email) == B.Run(b, Events(calls, email))
    decreases |calls|
  {
    if calls != [] {
      hide B.Stores, B.Run, R.Apply, Follow, EventsOf;
      var c := calls[0];
      var (db', answer) := R.Apply(db, c.now, c.op);
      FollowIsStep(db, b, c, email);
      var b' := B.Run(b, EventsOf(c, email));
      HistoryIsRun(db', b', calls[1..], email);
      assert R.Answers(db, calls) == [answer] + R.Answers(db', calls[1..]);
      assert R.Answers(db, calls)[1..] == R.Answers(db', calls[1..]);
      EventsAreFew(c, email);
      RunAppend(b, EventsOf(c, email), Events(calls[1..], email));
    } else {
      NothingHappened(b);
    }
  }

  lemma NothingHappened(b: B.Budget)
    ensures B.Run(b, []) == b
  {
  }

  lemma {:induction false} EarlierStart(early: int, last: int, events: seq<B.Event>)
    requires early <= last && B.InClockOrder(last, events)
    ensures B.InClockOrder(early, events)
    decreases |events|
  {
    if events != [] && (events[0].Refund? || events[0].Erase?) {
      EarlierStart(early, last, events[1..]);
    }
  }

  lemma FirstInOrder(last: int, c: R.Call, rest: seq<B.Event>, email: string)
    requires last <= c.now && B.InClockOrder(c.now, rest)
    ensures B.InClockOrder(last, EventsOf(c, email) + rest)
  {
    var first := EventsOf(c, email);
    EarlierStart(last, c.now, rest);
    if first == [] {
      assert first + rest == rest;
    } else {
      assert (first + rest)[1..] == rest;
    }
  }

  lemma {:induction false} EventsInOrder(all: R.Db, last: int, run: seq<R.Call>, email: string)
    requires R.ProperRun(all, last, run)
    ensures B.InClockOrder(last, Events(R.WithoutSweeps(run), email))
    decreases |run|
  {
    if run != [] {
      hide R.Proper, R.Apply, EventsOf;
      var c, rest := run[0], R.WithoutSweeps(run[1..]);
      EventsInOrder(if c.op.SweepAll? then all else R.Apply(all, c.now, c.op).0, c.now, run[1..], email);
      if c.op.SweepAll? {
        EarlierStart(last, c.now, Events(rest, email));
      } else {
        FirstInOrder(last, c, Events(rest, email), email);
        assert ([c] + rest)[1..] == rest;
      }
    }
  }

  const NONE: B.Budget := B.Budget([], [])

  /** The history of `email` after a run of the swept store. */
  function HistoryOf(run: seq<R.Call>, email: string): B.Budget {
    History(NONE, R.WithoutSweeps(run), R.Answers(R.EMPTY, run), email)
  }

  lemma SweptHistoryIsRun(start: int, run: seq<R.Call>, email: string)
    requires R.ProperRun(R.EMPTY, start, run)
    ensures HistoryOf(run, email) == B.Run(NONE, Events(R.WithoutSweeps(run), email))
  {
    R.SweepIsInvisible(start, run);
    R.WithoutSweepsHasNone(run);
    hide R.Answers, R.WithoutSweeps, R.ProperRun, History, B.Run;
    assert B.Stores(R.EMPTY.attempts, email, NONE);
    HistoryIsRun(R.EMPTY, NONE, R.WithoutSweeps(run), email);
  }

  /** Over any proper run of the whole store, swept or not, with refunds, erasures and the calls of
      everybody else: at most 3 admissions of an email that stand fall in any 900 seconds, and at
      most 2 in any half hour every instant of which has a refusal less than 24 hours before it. */
  lemma StoredBudgetHolds(start: int, run: seq<R.Call>, email: string, lo: int)
    requires R.ProperRun(R.EMPTY, start, run)
    ensures var h := HistoryOf(run, email);
            && CountIn(B.Taken(h.rows), lo, lo + 900) <= 3
            && ((forall t | lo <= t < lo + 1800 :: B.BlockedBefore(h.blocks, t)) ==>
                  CountIn(B.Taken(h.rows), lo, lo + 1800) <= 2)
  {
    SweptHistoryIsRun(start, run, email);
    EventsInOrder(R.EMPTY, start, run, email);
    var events := Events(R.WithoutSweeps(run), email);
    hide HistoryOf, Events, R.WithoutSweeps, R.ProperRun, B.Run, B.InClockOrder, B.BlockedBefore, CountIn, B.Taken;
    B.NormalBudgetHolds(events, lo);
    if forall t | lo <= t < lo + B.STRICT_WINDOW :: B.BlockedBefore(HistoryOf(run, email).blocks, t) {
      B.StrictBudgetHolds(events, start, lo);
    }
  }
}
