/** `guest_store.py`, `signin_budget_take` and its refund: the two-mode budget of one email.

    The rows are the attempts that count: the admissions neither refunded nor erased, and attempts
    of the budget's kind recorded from outside. `blocks` is the history of refused attempts, of
    which the store keeps only the last. */
module SigninBudget {
  import opened SlidingWindow
  import A = AttemptRows

  const LIMIT: nat := 3
  const WINDOW: nat := 900
  const STRICT_LIMIT: nat := 2
  const STRICT_WINDOW: nat := 1800
  const QUIET: nat := 86400

  /** One counted attempt; `taken` tells an admission from a recorded one. */
  datatype Row = Row(at: int, taken: bool, strict: bool)

  datatype Budget = Budget(rows: seq<Row>, blocks: seq<int>)

  datatype Event = Take(now: int) | Note(now: int) | Refund | Erase

  function Times(rows: seq<Row>): seq<int> {
    if rows == [] then [] else Times(rows[..|rows| - 1]) + [rows[|rows| - 1].at]
  }

  /** The times of the admissions among them. */
  function Taken(rows: seq<Row>): seq<int> {
    if rows == [] then []
    else
      var r := rows[|rows| - 1];
      Taken(rows[..|rows| - 1]) + if r.taken then [r.at] else []
  }

  /** The store's test: only the last block is kept. */
  predicate StrictAt(b: Budget, now: int) {
    b.blocks != [] && now - b.blocks[|b.blocks| - 1] < QUIET
  }

  predicate Admits(b: Budget, now: int) {
    if StrictAt(b, now) then CountAfter(Times(b.rows), now - STRICT_WINDOW) < STRICT_LIMIT
    else CountAfter(Times(b.rows), now - WINDOW) < LIMIT
  }

  function Admit(b: Budget, now: int): Budget { b.(rows := b.rows + [Row(now, true, StrictAt(b, now))]) }

  function Refuse(b: Budget, now: int): Budget { b.(blocks := b.blocks + [now]) }

  function Noted(b: Budget, now: int): Budget { b.(rows := b.rows + [Row(now, false, false)]) }

  function Refunded(b: Budget): Budget {
    if b.rows == [] then b else b.(rows := b.rows[..|b.rows| - 1])
  }

  function Step(b: Budget, e: Event): Budget {
    match e
    case Take(now) => if Admits(b, now) then Admit(b, now) else Refuse(b, now)
    case Note(now) => Noted(b, now)
    case Refund => Refunded(b)
    case Erase => b.(rows := [])
  }

  function Run(b: Budget, events: seq<Event>): Budget
    decreases |events|
  {
    if events == [] then b else Run(Step(b, events[0]), events[1..])
  }

  predicate InClockOrder(last: int, events: seq<Event>)
    decreases |events|
  {
    events == [] ||
    match events[0]
    case Take(now) => last <= now && InClockOrder(now, events[1..])
    case Note(now) => last <= now && InClockOrder(now, events[1..])
    case _ => InClockOrder(last, events[1..])
  }

  /** An admission flagged strict left at most two in its half hour. */
  predicate StrictRolling(rows: seq<Row>) {
    rows == [] || (
      var last := rows[|rows| - 1];
      && StrictRolling(rows[..|rows| - 1])
      && (last.taken && last.strict ==> CountAfter(Taken(rows), last.at - STRICT_WINDOW) <= STRICT_LIMIT))
  }

  ghost predicate Inv(b: Budget) {
    Rolling(Taken(b.rows), LIMIT, WINDOW) && StrictRolling(b.rows)
  }

  lemma TimesSnoc(rows: seq<Row>, r: Row)
    ensures Times(rows + [r]) == Times(rows) + [r.at]
    ensures Taken(rows + [r]) == Taken(rows) + if r.taken then [r.at] else []
  {
    assert (rows + [r])[..|rows|] == rows;
  }

  lemma {:induction false} TakenAreSome(rows: seq<Row>, cutoff: int)
    ensures CountAfter(Taken(rows), cutoff) <= CountAfter(Times(rows), cutoff)
  {
    if rows != [] {
      hide CountAfter;
      var rest, r := rows[..|rows| - 1], rows[|rows| - 1];
      TakenAreSome(rest, cutoff);
      CountAfterSnoc(Times(rest), r.at, cutoff);
      CountAfterSnoc(Taken(rest), r.at, cutoff);
      assert Taken(rest) + [] == Taken(rest);
    } else {
      assert CountAfter([], cutoff) == 0;
    }
  }

  lemma AdmitKeepsInv(b: Budget, now: int)
    requires Inv(b) && Admits(b, now)
    ensures Inv(Admit(b, now))
  {
    hide Rolling, CountAfter, Times, Taken;
    var r := Row(now, true, StrictAt(b, now));
    TimesSnoc(b.rows, r);
    assert (b.rows + [r])[..|b.rows|] == b.rows;
    TakenAreSome(b.rows, now - STRICT_WINDOW);
    TakenAreSome(b.rows, now - WINDOW);
    CountAfterShrinks(Times(b.rows), now - STRICT_WINDOW, now - WINDOW);
    CountAfterSnoc(Taken(b.rows), now, now - STRICT_WINDOW);
    AdmitKeepsRolling(Taken(b.rows), LIMIT, WINDOW, now);
  }

  lemma NoteKeepsInv(b: Budget, now: int)
    requires Inv(b)
    ensures Inv(Noted(b, now))
  {
    var r := Row(now, false, false);
    TimesSnoc(b.rows, r);
    assert (b.rows + [r])[..|b.rows|] == b.rows;
    assert Taken(b.rows) + [] == Taken(b.rows);
  }

  lemma RefundKeepsInv(b: Budget)
    requires Inv(b)
    ensures Inv(Refunded(b))
  {
    if b.rows != [] {
      var rest, r := b.rows[..|b.rows| - 1], b.rows[|b.rows| - 1];
      assert b.rows == rest + [r];
      TimesSnoc(rest, r);
      if r.taken {
        assert Taken(b.rows)[..|Taken(b.rows)| - 1] == Taken(rest);
      } else {
        assert Taken(rest) + [] == Taken(rest);
      }
    }
  }

  lemma StepKeepsInv(b: Budget, e: Event)
    requires Inv(b)
    ensures Inv(Step(b, e))
  {
    hide Inv, Admits;
    match e {
      case Take(now) => if Admits(b, now) { AdmitKeepsInv(b, now); } else { RefuseKeepsInv(b, now); }
      case Note(now) => NoteKeepsInv(b, now);
      case Refund => RefundKeepsInv(b);
      case Erase => EraseKeepsInv(b);
    }
  }

  lemma RefuseKeepsInv(b: Budget, now: int)
    requires Inv(b)
    ensures Inv(Refuse(b, now))
  {
  }

  lemma EraseKeepsInv(b: Budget)
    ensures Inv(b.(rows := []))
  {
  }

  lemma {:induction false} RunKeepsInv(b: Budget, events: seq<Event>)
    requires Inv(b)
    ensures Inv(Run(b, events))
    decreases |events|
  {
    if events != [] {
      hide Inv;
      StepKeepsInv(b, events[0]);
      RunKeepsInv(Step(b, events[0]), events[1..]);
    }
  }

  /** At most three admissions that stand fall in any 15 minutes of any run. */
  lemma NormalBudgetHolds(events: seq<Event>, lo: int)
    ensures CountIn(Taken(Run(Budget([], []), events).rows), lo, lo + WINDOW) <= LIMIT
  {
    RunKeepsInv(Budget([], []), events);
    RollingBoundsEverySpan(Taken(Run(Budget([], []), events).rows), LIMIT, WINDOW, lo);
  }

  /** Less than 24 hours after a refusal a take is admitted exactly if at most one admission is in
      the half hour before it, and so leaves at most two there. */
  lemma StrictAdmissionLeavesTwo(b: Budget, now: int)
    requires StrictAt(b, now)
    ensures var b' := Step(b, Take(now));
            && (b'.blocks == b.blocks <==> CountAfter(Times(b.rows), now - STRICT_WINDOW) < STRICT_LIMIT)
            && (b'.blocks == b.blocks ==> CountAfter(Times(b'.rows), now - STRICT_WINDOW) <= STRICT_LIMIT)
            && (b'.blocks != b.blocks ==> b'.rows == b.rows && StrictAt(b', now + QUIET - 1))
  {
    var r := Row(now, true, true);
    TimesSnoc(b.rows, r);
    CountAfterSnoc(Times(b.rows), now, now - STRICT_WINDOW);
    assert |b.blocks + [now]| == |b.blocks| + 1;
  }

  /** Every admission in `[lo, hi)` was made while strict. */
  predicate AllStrictIn(rows: seq<Row>, lo: int, hi: int) {
    forall i | 0 <= i < |rows| && lo <= rows[i].at < hi && rows[i].taken :: rows[i].strict
  }

  lemma {:induction false} StrictSpan(rows: seq<Row>, lo: int)
    requires StrictRolling(rows) && AllStrictIn(rows, lo, lo + STRICT_WINDOW)
    ensures CountIn(Taken(rows), lo, lo + STRICT_WINDOW) <= STRICT_LIMIT
  {
    if rows != [] {
      var rest, r := rows[..|rows| - 1], rows[|rows| - 1];
      assert rows == rest + [r];
      TimesSnoc(rest, r);
      if r.taken && lo <= r.at < lo + STRICT_WINDOW {
        SpanIsAfter(Taken(rows), lo, lo + STRICT_WINDOW, r.at - STRICT_WINDOW);
      } else {
        StrictSpan(rest, lo);
        if r.taken {
          assert Taken(rows)[..|Taken(rows)| - 1] == Taken(rest);
        } else {
          assert Taken(rows) == Taken(rest);
        }
      }
    }
  }

  // ---- What the strict flag means ------------------------------------------------------

  /** A refusal came before `now`, less than 24 hours before it. */
  predicate BlockedBefore(blocks: seq<int>, now: int) {
    exists i | 0 <= i < |blocks| :: blocks[i] < now < blocks[i] + QUIET
  }

  /** The same, counting a refusal in the same second. */
  predicate BlockedBy(blocks: seq<int>, now: int) {
    exists i | 0 <= i < |blocks| :: blocks[i] <= now < blocks[i] + QUIET
  }

  /** The last refusal alone decides: it is the latest of the whole history. */
  lemma LastBlockDecides(b: Budget, now: int)
    requires UpTo(b.blocks, now)
    requires b.blocks != [] ==> UpTo(b.blocks, b.blocks[|b.blocks| - 1])
    ensures StrictAt(b, now) <==> BlockedBy(b.blocks, now)
  {
    if b.blocks != [] {
      var last := b.blocks[|b.blocks| - 1];
      assert StrictAt(b, now) ==> last <= now < last + QUIET;
    }
  }

  /** Refusals are kept in order, and every admission's flag tells its past. */
  ghost predicate Flagged(b: Budget, last: int) {
    && UpTo(b.blocks, last)
    && (b.blocks != [] ==> UpTo(b.blocks, b.blocks[|b.blocks| - 1]))
    && (forall i | 0 <= i < |b.rows| :: FlagTells(b.blocks, b.rows[i], last))
  }

  ghost predicate FlagTells(blocks: seq<int>, r: Row, last: int) {
    && r.at <= last
    && (r.taken && BlockedBefore(blocks, r.at) ==> r.strict)
    && (r.strict ==> BlockedBy(blocks, r.at))
  }

  lemma FlagTellsLater(blocks: seq<int>, r: Row, last: int, now: int)
    requires FlagTells(blocks, r, last) && last <= now
    ensures FlagTells(blocks, r, now) && FlagTells(blocks + [now], r, now)
  {
    var blocks' := blocks + [now];
    if r.strict {
      var i :| 0 <= i < |blocks| && blocks[i] <= r.at < blocks[i] + QUIET;
      assert blocks'[i] == blocks[i];
    }
    if i :| 0 <= i < |blocks'| && blocks'[i] < r.at < blocks'[i] + QUIET {
      assert blocks[i] == blocks'[i];
    }
  }

  lemma NewRowTells(b: Budget, last: int, now: int)
    requires Flagged(b, last) && last <= now
    ensures FlagTells(b.blocks, Row(now, true, StrictAt(b, now)), now)
  {
    LastBlockDecides(b, now);
    hide StrictAt;
    assert BlockedBefore(b.blocks, now) ==> BlockedBy(b.blocks, now);
  }

  lemma AdmitKeepsFlagged(b: Budget, last: int, now: int)
    requires Flagged(b, last) && last <= now
    ensures Flagged(Admit(b, now), now)
  {
    hide BlockedBefore, BlockedBy, StrictAt;
    NewRowTells(b, last, now);
    hide FlagTells;
    forall i | 0 <= i < |b.rows|
      ensures FlagTells(b.blocks, b.rows[i], now)
    {
      FlagTellsLater(b.blocks, b.rows[i], last, now);
    }
  }

  lemma RefuseKeepsFlagged(b: Budget, last: int, now: int)
    requires Flagged(b, last) && last <= now
    ensures Flagged(Refuse(b, now), now)
  {
    hide FlagTells;
    forall i | 0 <= i < |b.rows|
      ensures FlagTells(b.blocks + [now], b.rows[i], now)
    {
      FlagTellsLater(b.blocks, b.rows[i], last, now);
    }
  }

  lemma TakeKeepsFlagged(b: Budget, last: int, now: int)
    requires Flagged(b, last) && last <= now
    ensures Flagged(Step(b, Take(now)), now)
  {
    hide Flagged, Admits, Admit, Refuse;
    if Admits(b, now) {
      AdmitKeepsFlagged(b, last, now);
    } else {
      RefuseKeepsFlagged(b, last, now);
    }
  }

  lemma NoteKeepsFlagged(b: Budget, last: int, now: int)
    requires Flagged(b, last) && last <= now
    ensures Flagged(Step(b, Note(now)), now)
  {
    forall i | 0 <= i < |b.rows|
      ensures FlagTells(b.blocks, b.rows[i], now)
    {
      FlagTellsLater(b.blocks, b.rows[i], last, now);
    }
  }

  function LastTime(last: int, events: seq<Event>): int
    decreases |events|
  {
    if events == [] then last
    else
      match events[0]
      case Take(now) => LastTime(now, events[1..])
      case Note(now) => LastTime(now, events[1..])
      case _ => LastTime(last, events[1..])
  }

  lemma {:induction false} RunKeepsFlagged(b: Budget, last: int, events: seq<Event>) returns (end: int)
    requires Flagged(b, last) && InClockOrder(last, events)
    ensures Flagged(Run(b, events), end) && end == LastTime(last, events)
    decreases |events|
  {
    if events == [] {
      end := last;
    } else {
      var b' := Step(b, events[0]);
      match events[0] {
        case Take(now) =>
          TakeKeepsFlagged(b, last, now);
          end := RunKeepsFlagged(b', now, events[1..]);
        case Note(now) =>
          NoteKeepsFlagged(b, last, now);
          end := RunKeepsFlagged(b', now, events[1..]);
        case _ =>
          end := RunKeepsFlagged(b', last, events[1..]);
      }
    }
  }

  lemma {:induction false} TimesUpTo(rows: seq<Row>, last: int)
    requires forall i | 0 <= i < |rows| :: rows[i].at <= last
    ensures UpTo(Times(rows), last)
  {
    if rows != [] {
      TimesUpTo(rows[..|rows| - 1], last);
    }
  }

  lemma TakeBySpan(b: Budget, now: int)
    requires UpTo(Times(b.rows), now)
    ensures Admits(b, now) <==>
              if StrictAt(b, now) then CountIn(Times(b.rows), now - 1800 + 1, now + 1) < 2
              else CountIn(Times(b.rows), now - 900 + 1, now + 1) < 3
  {
    AfterIsSpan(Times(b.rows), now - STRICT_WINDOW, now);
    AfterIsSpan(Times(b.rows), now - WINDOW, now);
    hide CountIn, CountAfter, Times, StrictAt;
  }

  /** After any run in clock order a take passes exactly with fewer than 2 attempts that stand in the
      last half hour if a refusal came less than 24 hours ago, and otherwise with fewer than 3 in the
      last 15 minutes. */
  lemma TakeExactlyWhen(events: seq<Event>, start: int, now: int)
    requires InClockOrder(start, events) && LastTime(start, events) <= now
    ensures var b := Run(Budget([], []), events);
            Admits(b, now) <==>
              if exists i | 0 <= i < |b.blocks| :: b.blocks[i] <= now < b.blocks[i] + 86400
              then CountIn(Times(b.rows), now - 1800 + 1, now + 1) < 2
              else CountIn(Times(b.rows), now - 900 + 1, now + 1) < 3
  {
    var b := Run(Budget([], []), events);
    var end := RunKeepsFlagged(Budget([], []), start, events);
    hide Run, CountIn, CountAfter, Times, InClockOrder, LastTime, Admits;
    LastBlockDecides(b, now);
    TimesUpTo(b.rows, now);
    TakeBySpan(b, now);
    hide StrictAt, Flagged;
  }

  /** From a block until 24 hours without one: while every instant of a half-hour span has
      a refusal less than 24 hours before it, at most two admissions that stand fall in it. */
  lemma StrictBudgetHolds(events: seq<Event>, start: int, lo: int)
    requires InClockOrder(start, events)
    requires var blocks := Run(Budget([], []), events).blocks;
             forall t | lo <= t < lo + STRICT_WINDOW :: BlockedBefore(blocks, t)
    ensures CountIn(Taken(Run(Budget([], []), events).rows), lo, lo + STRICT_WINDOW) <= STRICT_LIMIT
  {
    var b0 := Budget([], []);
    RunKeepsInv(b0, events);
    var end := RunKeepsFlagged(b0, start, events);
    var b := Run(b0, events);
    forall i | 0 <= i < |b.rows| && lo <= b.rows[i].at < lo + STRICT_WINDOW && b.rows[i].taken
      ensures b.rows[i].strict
    {
      assert FlagTells(b.blocks, b.rows[i], end);
    }
    StrictSpan(b.rows, lo);
  }

  // ---- The store's rows refine the budget ----------------------------------------------------

  predicate Counted(r: A.Attempt, email: string) {
    A.IsFor(r, A.SigninEmail, A.ByEmail(email))
  }

  /** The budget rows of one email, oldest first. */
  function RowTimes(rows: seq<A.Attempt>, email: string): seq<int> {
    if rows == [] then []
    else
      var r := rows[|rows| - 1];
      RowTimes(rows[..|rows| - 1], email) + if Counted(r, email) then [r.ts] else []
  }

  /** The tables hold exactly this budget for `email`: its rows, and its last refusal. */
  ghost predicate Stores(t: A.Table, email: string, b: Budget) {
    && RowTimes(t.rows, email) == Times(b.rows)
    && (email in t.blocks <==> b.blocks != [])
    && (b.blocks != [] ==> t.blocks[email] == b.blocks[|b.blocks| - 1])
  }

  lemma RowTimesSnoc(rows: seq<A.Attempt>, r: A.Attempt, email: string)
    ensures RowTimes(rows + [r], email) == RowTimes(rows, email) + if Counted(r, email) then [r.ts] else []
  {
    assert (rows + [r])[..|rows|] == rows;
  }

  lemma {:induction false} CountIsCountAfter(rows: seq<A.Attempt>, email: string, cutoff: int)
    ensures A.CountRows(rows, A.SigninEmail, A.ByEmail(email), cutoff) == CountAfter(RowTimes(rows, email), cutoff)
  {
    if rows != [] {
      var rest, r := rows[..|rows| - 1], rows[|rows| - 1];
      CountIsCountAfter(rest, email, cutoff);
      CountAfterSnoc(RowTimes(rest, email), r.ts, cutoff);
      assert RowTimes(rest, email) + [] == RowTimes(rest, email);
    }
  }

  lemma {:induction false} DropLatestDropsLast(rows: seq<A.Attempt>, email: string)
    ensures var times := RowTimes(rows, email);
            RowTimes(A.DropLatest(rows, A.SigninEmail, A.ByEmail(email)), email)
            == if times == [] then [] else times[..|times| - 1]
  {
    if rows != [] {
      var rest, r := rows[..|rows| - 1], rows[|rows| - 1];
      if !Counted(r, email) {
        DropLatestDropsLast(rest, email);
        RowTimesSnoc(A.DropLatest(rest, A.SigninEmail, A.ByEmail(email)), r, email);
        assert RowTimes(rest, email) + [] == RowTimes(rest, email);
      }
    }
  }

  /** `signin_budget_take` answers and changes the rows exactly as the budget does. */
  lemma TakeRefines(t: A.Table, email: string, b: Budget, now: int)
    requires Stores(t, email, b)
    ensures A.Apply(t, now, A.TakeBudget(email)).1 == A.Decision(Admits(b, now))
    ensures Stores(A.Apply(t, now, A.TakeBudget(email)).0, email, Step(b, Take(now)))
  {
    CountIsCountAfter(t.rows, email, now - STRICT_WINDOW);
    CountIsCountAfter(t.rows, email, now - WINDOW);
    RowTimesSnoc(t.rows, A.Attempt(A.SigninEmail, A.ByEmail(email), now), email);
    TimesSnoc(b.rows, Row(now, true, StrictAt(b, now)));
  }

  /** `unrecord_attempt` on the email's own key is the refund. */
  lemma RefundRefines(t: A.Table, email: string, b: Budget, now: int)
    requires Stores(t, email, b)
    ensures Stores(A.Apply(t, now, A.Unrecord(A.SigninEmail, A.ByEmail(email))).0, email, Step(b, Refund))
  {
    DropLatestDropsLast(t.rows, email);
    hide RowTimes, A.DropLatest;
    if b.rows != [] {
      var rest, r := b.rows[..|b.rows| - 1], b.rows[|b.rows| - 1];
      assert b.rows == rest + [r];
      TimesSnoc(rest, r);
    }
  }

  /** What an operation of the tables means for the budget of one email, if anything. */
  function EventOf(now: int, op: A.Op, email: string): seq<Event> {
    match op
    case TakeBudget(e) => if e == email then [Take(now)] else []
    case Record(kind, key) => if kind == A.SigninEmail && key == A.ByEmail(email) then [Note(now)] else []
    case Unrecord(kind, key) => if kind == A.SigninEmail && key == A.ByEmail(email) then [Refund] else []
    case EraseEmail(e) => if e == email then [Erase] else []
    case Count(_, _, _) => []
  }

  lemma OtherTakeRefines(t: A.Table, email: string, b: Budget, now: int, other: string)
    requires Stores(t, email, b) && other != email
    ensures Stores(A.Apply(t, now, A.TakeBudget(other)).0, email, b)
  {
    hide A.Admits, RowTimes, Times;
    RowTimesSnoc(t.rows, A.Attempt(A.SigninEmail, A.ByEmail(other), now), email);
    assert RowTimes(t.rows, email) + [] == RowTimes(t.rows, email);
  }

  lemma RecordRefines(t: A.Table, email: string, b: Budget, now: int, kind: A.Kind, key: A.Key)
    requires Stores(t, email, b)
    ensures Stores(A.Apply(t, now, A.Record(kind, key)).0, email,
                   if kind == A.SigninEmail && key == A.ByEmail(email) then Noted(b, now) else b)
  {
    hide RowTimes, Times, Taken;
    RowTimesSnoc(t.rows, A.Attempt(kind, key, now), email);
    TimesSnoc(b.rows, Row(now, false, false));
    assert RowTimes(t.rows, email) + [] == RowTimes(t.rows, email);
  }

  lemma OtherUnrecordRefines(t: A.Table, email: string, b: Budget, now: int, kind: A.Kind, key: A.Key)
    requires Stores(t, email, b) && !(kind == A.SigninEmail && key == A.ByEmail(email))
    ensures Stores(A.Apply(t, now, A.Unrecord(kind, key)).0, email, b)
  {
    OtherDropKeeps(t.rows, email, kind, key);
  }

  lemma EraseRefines(t: A.Table, email: string, b: Budget, now: int, erased: string)
    requires Stores(t, email, b)
    ensures Stores(A.Apply(t, now, A.EraseEmail(erased)).0, email, if erased == email then b.(rows := []) else b)
  {
    DropKeyErases(t.rows, email, erased);
  }

  /** Every operation of the tables is, for the budget of every email, its event or nothing. */
  lemma OpRefines(t: A.Table, email: string, b: Budget, now: int, op: A.Op)
    requires Stores(t, email, b)
    ensures Stores(A.Apply(t, now, op).0, email, Run(b, EventOf(now, op, email)))
    ensures op == A.TakeBudget(email) ==> A.Apply(t, now, op).1 == A.Decision(Admits(b, now))
  {
    OneEvent(b, now, op, email);
    hide Admits, Stores, Run, Admit, Refuse, Noted, Refunded, A.Admits, A.DropLatest, A.DropKey;
    match op {
      case TakeBudget(e) =>
        if e == email { TakeRefines(t, email, b, now); } else { OtherTakeRefines(t, email, b, now, e); }
      case Record(kind, key) => RecordRefines(t, email, b, now, kind, key);
      case Unrecord(kind, key) =>
        if kind == A.SigninEmail && key == A.ByEmail(email) {
          RefundRefines(t, email, b, now);
        } else {
          OtherUnrecordRefines(t, email, b, now, kind, key);
        }
      case EraseEmail(e) => EraseRefines(t, email, b, now, e);
      case Count(_, _, _) =>
    }
  }

  lemma OneEvent(b: Budget, now: int, op: A.Op, email: string)
    ensures var es := EventOf(now, op, email);
            && |es| <= 1 && Run(b, es) == if es == [] then b else Step(b, es[0])
  {
    hide Step;
  }

  lemma {:induction false} DropKeyErases(rows: seq<A.Attempt>, email: string, erased: string)
    ensures RowTimes(A.DropKey(rows, A.ByEmail(erased)), email)
         == if erased == email then [] else RowTimes(rows, email)
  {
    if rows != [] {
      var rest, r := rows[..|rows| - 1], rows[|rows| - 1];
      DropKeyErases(rest, email, erased);
      if r.key == A.ByEmail(erased) {
        assert A.DropKey(rest, A.ByEmail(erased)) + [] == A.DropKey(rest, A.ByEmail(erased));
        assert RowTimes(rest, email) + [] == RowTimes(rest, email);
      } else {
        RowTimesSnoc(A.DropKey(rest, A.ByEmail(erased)), r, email);
      }
    }
  }

  lemma {:induction false} OtherDropKeeps(rows: seq<A.Attempt>, email: string, kind: A.Kind, key: A.Key)
    requires !(kind == A.SigninEmail && key == A.ByEmail(email))
    ensures RowTimes(A.DropLatest(rows, kind, key), email) == RowTimes(rows, email)
  {
    if rows != [] {
      var rest, r := rows[..|rows| - 1], rows[|rows| - 1];
      if A.IsFor(r, kind, key) {
        assert RowTimes(rest, email) + [] == RowTimes(rest, email);
      } else {
        OtherDropKeeps(rest, email, kind, key);
        RowTimesSnoc(A.DropLatest(rest, kind, key), r, email);
      }
    }
  }
}
