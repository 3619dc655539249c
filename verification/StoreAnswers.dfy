/** What the calls of the guest store answer over whole runs: each table answers by its own calls
    alone, whatever the calls on the others and whenever sweeps ran. */
module StoreAnswers {
  import T = SigninTokens
  import S = AppSessions
  import D = TrustedDevices
  import A = AttemptRows
  import W = SlidingWindow
  import Text
  import R = RetentionSweep

  /** The store after a run. */
  function After(db: R.Db, run: seq<R.Call>): R.Db
    decreases |run|
  {
    if run == [] then db else After(R.Apply(db, run[0].now, run[0].op).0, run[1..])
  }

  function TokenCalls(run: seq<R.Call>): seq<T.Call> {
    if run == [] then []
    else
      var c := run[|run| - 1];
      TokenCalls(run[..|run| - 1]) + if c.op.TokenOp? then [T.Call(c.now, c.op.t)] else []
  }

  function SessionCalls(run: seq<R.Call>): seq<S.Call> {
    if run == [] then []
    else
      var c := run[|run| - 1];
      SessionCalls(run[..|run| - 1]) + if c.op.SessionOp? then [S.Call(c.now, c.op.s)] else []
  }

  function DeviceCalls(run: seq<R.Call>): seq<D.Call> {
    if run == [] then []
    else
      var c := run[|run| - 1];
      DeviceCalls(run[..|run| - 1]) + if c.op.DeviceOp? then [D.Call(c.now, c.op.d)] else []
  }

  function AttemptCalls(run: seq<R.Call>): seq<A.Call> {
    if run == [] then []
    else
      var c := run[|run| - 1];
      AttemptCalls(run[..|run| - 1]) + if c.op.AttemptOp? then [A.Call(c.now, c.op.a)] else []
  }

  lemma {:induction false} AfterSnoc(db: R.Db, run: seq<R.Call>, c: R.Call)
    ensures After(db, run + [c]) == R.Apply(After(db, run), c.now, c.op).0
    decreases |run|
  {
    hide R.Apply;
    if run == [] {
      assert run + [c] == [c] && [c][1..] == [];
    } else {
      assert (run + [c])[1..] == run[1..] + [c] && (run + [c])[0] == run[0];
      AfterSnoc(R.Apply(db, run[0].now, run[0].op).0, run[1..], c);
    }
  }

  // ---- Each table by its own calls -------------------------------------------------------------------

  /** The tables are those their own calls make. */
  predicate ByOwnCalls(db: R.Db, run: seq<R.Call>) {
    && db.tokens == T.After(TokenCalls(run))
    && db.sessions == S.Run(map[], SessionCalls(run))
    && db.devices == D.After(DeviceCalls(run))
    && db.attempts == A.After(AttemptCalls(run))
  }

  lemma TableSnocs(t: T.Call, ts: seq<T.Call>, s: S.Call, ss: seq<S.Call>, d: D.Call, ds: seq<D.Call>,
                   a: A.Call, aa: seq<A.Call>)
    ensures T.After(ts + [t]) == T.Apply(T.After(ts), t.now, t.op).0
    ensures S.Run(map[], ss + [s]) == S.Apply(S.Run(map[], ss), s.now, s.op).0
    ensures D.After(ds + [d]) == D.Apply(D.After(ds), d.now, d.op).0
    ensures A.After(aa + [a]) == A.Apply(A.After(aa), a.now, a.op).0
  {
    hide T.Apply, S.Apply, D.Apply, A.Apply;
    assert (ts + [t])[..|ts|] == ts && (ss + [s])[..|ss|] == ss;
    assert (ds + [d])[..|ds|] == ds && (aa + [a])[..|aa|] == aa;
  }

  lemma StepByOwnCalls(db: R.Db, run: seq<R.Call>, c: R.Call)
    requires ByOwnCalls(db, run) && !c.op.SweepAll?
    ensures ByOwnCalls(R.Apply(db, c.now, c.op).0, run + [c])
  {
    hide T.After, S.Run, D.After, A.After, T.Apply, S.Apply, D.Apply, A.Apply;
    assert (run + [c])[..|run|] == run;
    var t := if c.op.TokenOp? then T.Call(c.now, c.op.t) else T.Call(0, T.Bind("", ""));
    var s := if c.op.SessionOp? then S.Call(c.now, c.op.s) else S.Call(0, S.Get(""));
    var d := if c.op.DeviceOp? then D.Call(c.now, c.op.d) else D.Call(0, D.DeleteFor(""));
    var a := if c.op.AttemptOp? then A.Call(c.now, c.op.a) else A.Call(0, A.EraseEmail(""));
    assert TokenCalls(run) + [] == TokenCalls(run) && SessionCalls(run) + [] == SessionCalls(run);
    assert DeviceCalls(run) + [] == DeviceCalls(run) && AttemptCalls(run) + [] == AttemptCalls(run);
    TableSnocs(t, TokenCalls(run), s, SessionCalls(run), d, DeviceCalls(run), a, AttemptCalls(run));
  }

  lemma {:induction false} TablesFollowTheirCalls(run: seq<R.Call>)
    requires R.NoSweeps(run)
    ensures ByOwnCalls(After(R.EMPTY, run), run)
  {
    if run != [] {
      var before, c := run[..|run| - 1], run[|run| - 1];
      hide ByOwnCalls, R.Apply;
      TablesFollowTheirCalls(before);
      assert run == before + [c];
      AfterSnoc(R.EMPTY, before, c);
      StepByOwnCalls(After(R.EMPTY, before), before, c);
    }
  }

  // ---- The swept store answers likewise -----------------------------------------------------------------

  /** The call after a proper run finds the swept store in agreement with the unswept one. */
  lemma {:induction false} StaysInStep(all: R.Db, kept: R.Db, gone: seq<A.Attempt>, last: int, run: seq<R.Call>, c: R.Call)
    returns (gone': seq<A.Attempt>)
    requires R.Sim(all, kept, gone, last) && R.ProperRun(all, last, run + [c])
    ensures R.Sim(After(all, R.WithoutSweeps(run)), After(kept, run), gone', c.now)
    ensures R.Proper(After(all, R.WithoutSweeps(run)), c.now, c.op)
    decreases |run|
  {
    hide R.Proper, R.Sim, R.Apply;
    if run == [] {
      assert run + [c] == [c];
      R.SimLater(all, kept, gone, last, c.now);
      gone' := gone;
    } else {
      var first := run[0];
      assert (run + [c])[0] == first && (run + [c])[1..] == run[1..] + [c];
      R.SimLater(all, kept, gone, last, first.now);
      if first.op.SweepAll? {
        var swept := R.SweepKeepsSim(all, kept, gone, first.now);
        SweepIsSweep(kept, first.now);
        gone' := StaysInStep(all, R.Sweep(kept, first.now), swept, first.now, run[1..], c);
      } else {
        var next := R.CallAgrees(all, kept, gone, first.now, first.op);
        var all', kept' := R.Apply(all, first.now, first.op).0, R.Apply(kept, first.now, first.op).0;
        gone' := StaysInStep(all', kept', next, first.now, run[1..], c);
        assert ([first] + R.WithoutSweeps(run[1..]))[1..] == R.WithoutSweeps(run[1..]);
      }
    }
  }

  lemma SweepIsSweep(db: R.Db, now: int)
    ensures R.Apply(db, now, R.SweepAll).0 == R.Sweep(db, now)
  {
  }

  /** What the table of a call would answer after its own calls alone. */
  function OwnAnswer(run: seq<R.Call>, c: R.Call): R.Answer {
    match c.op
    case TokenOp(t) => R.Token(T.Apply(T.After(TokenCalls(run)), c.now, t).1)
    case SessionOp(s) => R.Session(S.Apply(S.Run(map[], SessionCalls(run)), c.now, s).1)
    case DeviceOp(d) => R.Device(D.Apply(D.After(DeviceCalls(run)), c.now, d).1)
    case AttemptOp(a) => R.Attempt(A.Apply(A.After(AttemptCalls(run)), c.now, a).1)
    case SweepAll => R.Swept
  }

  /** After any proper run, sweeps included, a call answers what its table answers after its own calls
      alone; so what is proved of each table holds of the store. */
  lemma StoreAnswersByTable(start: int, run: seq<R.Call>, c: R.Call)
    requires R.ProperRun(R.EMPTY, start, run + [c])
    ensures R.Apply(After(R.EMPTY, run), c.now, c.op).1 == OwnAnswer(R.WithoutSweeps(run), c)
  {
    var gone := StaysInStep(R.EMPTY, R.EMPTY, [], start, run, c);
    var unswept := R.WithoutSweeps(run);
    R.WithoutSweepsHasNone(run);
    TablesFollowTheirCalls(unswept);
    hide T.Apply, S.Apply, D.Apply, A.Apply, T.After, S.Run, D.After, A.After, After, R.ProperRun, R.Sim, R.Proper;
    if !c.op.SweepAll? {
      var _ := R.CallAgrees(After(R.EMPTY, unswept), After(R.EMPTY, run), gone, c.now, c.op);
    }
  }

  // ---- What that comes to ---------------------------------------------------------------------------------

  /** In the swept store too, a token is verified exactly when it stands for that email and purpose. */
  lemma StoreVerifiesExactly(start: int, run: seq<R.Call>, now: int, email: string, h: T.Digest, purpose: string)
    requires R.ProperRun(R.EMPTY, start, run + [R.Call(now, R.TokenOp(T.Verify(email, h, purpose)))])
    ensures R.Apply(After(R.EMPTY, run), now, R.TokenOp(T.Verify(email, h, purpose))).1
         == R.Token(T.Decision(T.StandsFor(TokenCalls(R.WithoutSweeps(run)), now, email, h, purpose)))
  {
    StoreAnswersByTable(start, run, R.Call(now, R.TokenOp(T.Verify(email, h, purpose))));
    T.VerifiedExactlyWhen(TokenCalls(R.WithoutSweeps(run)), now, email, h, purpose);
    hide T.Apply, T.After, After, T.StandsFor;
  }

  /** And a rate limit counts exactly the attempts recorded in its window, refunded and erased ones
      left out. */
  lemma StoreCountsExactly(start: int, run: seq<R.Call>, now: int, kind: A.Kind, key: A.Key, window: int)
    requires R.ProperRun(R.EMPTY, start, run + [R.Call(now, R.AttemptOp(A.Count(kind, key, window)))])
    requires kind != A.SigninEmail
    ensures R.Apply(After(R.EMPTY, run), now, R.AttemptOp(A.Count(kind, key, window))).1
         == R.Attempt(A.Counted(W.CountAfter(A.Recorded(AttemptCalls(R.WithoutSweeps(run)), kind, key), now - window)))
  {
    StoreAnswersByTable(start, run, R.Call(now, R.AttemptOp(A.Count(kind, key, window))));
    A.CountsWhatWasRecorded(AttemptCalls(R.WithoutSweeps(run)), now, kind, key, window);
    hide A.Apply, A.After, After, A.Recorded, W.CountAfter;
  }
}
