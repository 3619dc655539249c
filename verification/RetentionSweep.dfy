/** The row-expiry half of `GuestStore.sweep` is invisible: no later answer depends on whether
    or when sweeps ran. A store that is swept is compared, call by call, with one that never is. */
module RetentionSweep {
  import T = SigninTokens
  import S = AppSessions
  import D = TrustedDevices
  import A = AttemptRows

  datatype Db = Db(tokens: T.Table, sessions: S.Table, devices: D.Table, attempts: A.Table)

  const EMPTY: Db := Db(T.Table(map[], map[]), map[], map[], A.Table([], map[]))

  /** One call on the store, or a sweep. Erasing a guest is its token and attempt half. */
  datatype Op =
    | TokenOp(t: T.Op)
    | SessionOp(s: S.Op)
    | DeviceOp(d: D.Op)
    | AttemptOp(a: A.Op)
    | SweepAll

  datatype Answer =
    | Token(t: T.Answer)
    | Session(s: S.Answer)
    | Device(d: D.Answer)
    | Attempt(a: A.Answer)
    | Swept

  function Sweep(db: Db, now: int): Db {
    Db(T.Sweep(db.tokens, now), S.Sweep(db.sessions, now), D.Sweep(db.devices, now), A.Sweep(db.attempts, now))
  }

  function Apply(db: Db, now: int, op: Op): (Db, Answer) {
    match op
    case TokenOp(t) => var r := T.Apply(db.tokens, now, t); (db.(tokens := r.0), Token(r.1))
    case SessionOp(s) => var r := S.Apply(db.sessions, now, s); (db.(sessions := r.0), Session(r.1))
    case DeviceOp(d) => var r := D.Apply(db.devices, now, d); (db.(devices := r.0), Device(r.1))
    case AttemptOp(a) => var r := A.Apply(db.attempts, now, a); (db.(attempts := r.0), Attempt(r.1))
    case SweepAll => (Sweep(db, now), Swept)
  }

  datatype Call = Call(now: int, op: Op)

  /** The answers of a run; a sweep answers nothing. */
  function Answers(db: Db, run: seq<Call>): seq<Answer>
    decreases |run|
  {
    if run == [] then []
    else
      var (db', answer) := Apply(db, run[0].now, run[0].op);
      if run[0].op.SweepAll? then Answers(db', run[1..]) else [answer] + Answers(db', run[1..])
  }

  function WithoutSweeps(run: seq<Call>): seq<Call> {
    if run == [] then []
    else if run[0].op.SweepAll? then WithoutSweeps(run[1..])
    else [run[0]] + WithoutSweeps(run[1..])
  }

  predicate NoSweeps(calls: seq<Call>) { forall i | 0 <= i < |calls| :: !calls[i].op.SweepAll? }

  lemma {:induction false} WithoutSweepsHasNone(run: seq<Call>)
    ensures NoSweeps(WithoutSweeps(run))
  {
    if run != [] {
      WithoutSweepsHasNone(run[1..]);
    }
  }

  ghost predicate Proper(db: Db, now: int, op: Op) {
    match op
    case TokenOp(t) => T.Proper(db.tokens, t)
    case SessionOp(s) => S.Proper(db.sessions, now, s)
    case DeviceOp(d) => D.Proper(db.devices, d)
    case AttemptOp(a) => A.Proper(a)
    case SweepAll => true
  }

  /** Clock order, and every call proper on the store that is never swept. */
  ghost predicate ProperRun(all: Db, last: int, run: seq<Call>)
    decreases |run|
  {
    run == [] || (
      var c := run[0];
      && last <= c.now && Proper(all, c.now, c.op)
      && ProperRun(if c.op.SweepAll? then all else Apply(all, c.now, c.op).0, c.now, run[1..]))
  }

  ghost predicate Sim(all: Db, kept: Db, gone: seq<A.Attempt>, now: int) {
    && T.Sim(all.tokens, kept.tokens, now)
    && S.Sim(all.sessions, kept.sessions, now)
    && D.Sim(all.devices, kept.devices, now)
    && A.Sim(all.attempts, kept.attempts, gone, now)
  }

  lemma SimLater(all: Db, kept: Db, gone: seq<A.Attempt>, last: int, now: int)
    requires Sim(all, kept, gone, last) && last <= now
    ensures Sim(all, kept, gone, now)
  {
    T.SweepKeepsSim(all.tokens, kept.tokens, last, now);
    S.SweepKeepsSim(all.sessions, kept.sessions, last, now);
    D.SweepKeepsSim(all.devices, kept.devices, last, now);
    A.SimLater(all.attempts, kept.attempts, gone, last, now);
  }

  lemma SweepKeepsSim(all: Db, kept: Db, gone: seq<A.Attempt>, now: int) returns (gone': seq<A.Attempt>)
    requires Sim(all, kept, gone, now)
    ensures Sim(all, Sweep(kept, now), gone', now)
  {
    T.SweepKeepsSim(all.tokens, kept.tokens, now, now);
    S.SweepKeepsSim(all.sessions, kept.sessions, now, now);
    D.SweepKeepsSim(all.devices, kept.devices, now, now);
    gone' := A.SweepKeepsSim(all.attempts, kept.attempts, gone, now);
  }

  lemma CallAgrees(all: Db, kept: Db, gone: seq<A.Attempt>, now: int, op: Op) returns (gone': seq<A.Attempt>)
    requires Sim(all, kept, gone, now) && Proper(all, now, op) && !op.SweepAll?
    ensures Apply(all, now, op).1 == Apply(kept, now, op).1
    ensures Sim(Apply(all, now, op).0, Apply(kept, now, op).0, gone', now)
  {
    gone' := gone;
    match op {
      case TokenOp(t) => T.CallAgrees(all.tokens, kept.tokens, now, t);
      case SessionOp(s) => S.CallAgrees(all.sessions, kept.sessions, now, s);
      case DeviceOp(d) => D.CallAgrees(all.devices, kept.devices, now, d);
      case AttemptOp(a) => gone' := A.CallAgrees(all.attempts, kept.attempts, gone, now, a);
    }
  }

  lemma {:induction false} RunsAgree(all: Db, kept: Db, gone: seq<A.Attempt>, last: int, run: seq<Call>)
    requires Sim(all, kept, gone, last) && ProperRun(all, last, run)
    ensures Answers(kept, run) == Answers(all, WithoutSweeps(run))
    decreases |run|
  {
    if run != [] {
      var c, rest := run[0], WithoutSweeps(run[1..]);
      SimLater(all, kept, gone, last, c.now);
      if c.op.SweepAll? {
        var gone' := SweepKeepsSim(all, kept, gone, c.now);
        RunsAgree(all, Sweep(kept, c.now), gone', c.now, run[1..]);
      } else {
        var gone' := CallAgrees(all, kept, gone, c.now, c.op);
        RunsAgree(Apply(all, c.now, c.op).0, Apply(kept, c.now, c.op).0, gone', c.now, run[1..]);
        AnswersCons(all, c, rest);
      }
    }
  }

  lemma AnswersCons(db: Db, c: Call, rest: seq<Call>)
    requires !c.op.SweepAll?
    ensures Answers(db, [c] + rest) == [Apply(db, c.now, c.op).1] + Answers(Apply(db, c.now, c.op).0, rest)
  {
    assert ([c] + rest)[1..] == rest;
  }

  /** Sweeps, however many and whenever, change no answer of any proper run. */
  lemma SweepIsInvisible(start: int, run: seq<Call>)
    requires ProperRun(EMPTY, start, run)
    ensures Answers(EMPTY, run) == Answers(EMPTY, WithoutSweeps(run))
  {
    RunsAgree(EMPTY, EMPTY, [], start, run);
  }
}
