/** The `tokens` and `signin_pending` tables of `guest_store.py`: single-use tokens with a
    lifetime, and their binding to the browser that asked for them.

    Raw values are stored only as SHA-256 digests; the digest is taken to be injective, so a
    `Digest` stands for the raw value. */
module SigninTokens {
  import opened Text

  const DAY_S: int := 86400
  const TOKEN_RETENTION_S: int := DAY_S

  type Digest = string

  datatype Token = Token(email: string, purpose: string, issued: int, ttl: int, used: bool)
  datatype Table = Table(tokens: map<Digest, Token>, pending: map<Digest, Digest>)

  datatype Op =
    | Issue(h: Digest, email: string, purpose: string, ttl: int)
    | Verify(email: string, h: Digest, purpose: string)
    | Peek(h: Digest, purpose: string)
    | Consume(h: Digest, purpose: string)
    | Bind(pending: Digest, h: Digest)
    | VerifySignin(email: string, h: Digest, pending: Digest, purpose: string)
    | PeekSignin(email: string, h: Digest, pending: Digest, purpose: string)
    | EraseEmail(email: string)

  datatype Answer = Done | Decision(ok: bool) | EmailFound(email: Option<string>)

  predicate Live(t: Token, purpose: string, now: int) {
    t.purpose == purpose && !t.used && t.issued + t.ttl > now
  }

  predicate Matches(t: Table, h: Digest, email: string, purpose: string, now: int) {
    h in t.tokens && t.tokens[h].email == email && Live(t.tokens[h], purpose, now)
  }

  predicate BoundTo(t: Table, pending: Digest, h: Digest) {
    pending in t.pending && t.pending[pending] == h
  }

  function Use(t: Table, h: Digest): Table
    requires h in t.tokens
  {
    Table(t.tokens[h := t.tokens[h].(used := true)], t.pending)
  }

  function Apply(t: Table, now: int, op: Op): (Table, Answer) {
    match op
    case Issue(h, email, purpose, ttl) =>
      (Table(t.tokens[h := Token(email, purpose, now, ttl, false)], t.pending), Done)
    case Verify(email, h, purpose) =>
      if Matches(t, h, email, purpose, now) then (Use(t, h), Decision(true)) else (t, Decision(false))
    case Peek(h, purpose) =>
      (t, EmailFound(if h in t.tokens && Live(t.tokens[h], purpose, now) then Some(t.tokens[h].email) else None))
    case Consume(h, purpose) =>
      if h in t.tokens && Live(t.tokens[h], purpose, now)
      then (Use(t, h), EmailFound(Some(t.tokens[h].email))) else (t, EmailFound(None))
    case Bind(pending, h) => (Table(t.tokens, t.pending[pending := h]), Done)
    case VerifySignin(email, h, pending, purpose) =>
      if Matches(t, h, email, purpose, now) && BoundTo(t, pending, h)
      then (Use(t, h), Decision(true)) else (t, Decision(false))
    case PeekSignin(email, h, pending, purpose) =>
      (t, Decision(Matches(t, h, email, purpose, now) && BoundTo(t, pending, h)))
    case EraseEmail(email) =>
      (Table(map h | h in t.tokens && t.tokens[h].email != email :: t.tokens[h], t.pending), Done)
  }

  /** The sweep's share: day-old tokens go, then bindings to tokens that are gone. */
  function Sweep(t: Table, now: int): Table {
    var tokens := map h | h in t.tokens && t.tokens[h].issued >= now - TOKEN_RETENTION_S :: t.tokens[h];
    Table(tokens, map p | p in t.pending && t.pending[p] in tokens :: t.pending[p])
  }

  /** Issued tokens are new (to the table and its bindings) and live at most a day. */
  ghost predicate Proper(t: Table, op: Op) {
    op.Issue? ==> op.h !in t.tokens && op.h !in t.pending.Values && op.ttl <= TOKEN_RETENTION_S
  }

  // ---- The swept table against one that is never swept ------------------------------------

  ghost predicate Sim(all: Table, kept: Table, now: int) {
    && (forall h | h in kept.tokens :: h in all.tokens && all.tokens[h] == kept.tokens[h])
    && (forall h | h in all.tokens :: all.tokens[h].ttl <= TOKEN_RETENTION_S
                                      && (all.tokens[h].issued >= now - TOKEN_RETENTION_S ==> h in kept.tokens))
    && (forall p | p in kept.pending :: p in all.pending && all.pending[p] == kept.pending[p])
    && (forall p | p in all.pending && all.pending[p] in kept.tokens :: p in kept.pending)
  }

  lemma SameMatches(all: Table, kept: Table, now: int, h: Digest, email: string, purpose: string, pending: Digest)
    requires Sim(all, kept, now)
    ensures Matches(all, h, email, purpose, now) == Matches(kept, h, email, purpose, now)
    ensures Matches(all, h, email, purpose, now) ==> BoundTo(all, pending, h) == BoundTo(kept, pending, h)
  {
  }

  lemma UseKeepsSim(all: Table, kept: Table, now: int, h: Digest)
    requires Sim(all, kept, now) && h in kept.tokens
    ensures Sim(Use(all, h), Use(kept, h), now)
  {
  }

  lemma CallAgrees(all: Table, kept: Table, now: int, op: Op)
    requires Sim(all, kept, now) && Proper(all, op)
    ensures Apply(all, now, op).1 == Apply(kept, now, op).1
    ensures Sim(Apply(all, now, op).0, Apply(kept, now, op).0, now)
  {
    match op {
      case Verify(email, h, purpose) =>
        SameMatches(all, kept, now, h, email, purpose, h);
        if Matches(all, h, email, purpose, now) { UseKeepsSim(all, kept, now, h); }
      case Consume(h, purpose) =>
        if h in all.tokens && Live(all.tokens[h], purpose, now) { UseKeepsSim(all, kept, now, h); }
      case VerifySignin(email, h, pending, purpose) =>
        SameMatches(all, kept, now, h, email, purpose, pending);
        if Matches(all, h, email, purpose, now) { UseKeepsSim(all, kept, now, h); }
      case PeekSignin(email, h, pending, purpose) =>
        SameMatches(all, kept, now, h, email, purpose, pending);
      case _ =>
    }
  }

  lemma SweepKeepsSim(all: Table, kept: Table, last: int, now: int)
    requires Sim(all, kept, last) && last <= now
    ensures Sim(all, kept, now) && Sim(all, Sweep(kept, now), now)
  {
  }

  // ---- Single use ------------------------------------------------------------------------------

  datatype Call = Call(now: int, op: Op)

  /** The call used up the token `h`. */
  predicate Uses(t: Table, c: Call, h: Digest) {
    match c.op
    case Verify(_, h', _) => h == h' && Apply(t, c.now, c.op).1 == Decision(true)
    case VerifySignin(_, h', _, _) => h == h' && Apply(t, c.now, c.op).1 == Decision(true)
    case Consume(h', _) => h == h' && Apply(t, c.now, c.op).1 != EmailFound(None)
    case _ => false
  }

  function UseCount(t: Table, run: seq<Call>, h: Digest): nat
    decreases |run|
  {
    if run == [] then 0
    else (if Uses(t, run[0], h) then 1 else 0) + UseCount(Apply(t, run[0].now, run[0].op).0, run[1..], h)
  }

  predicate NeverIssues(run: seq<Call>, h: Digest) {
    forall i | 0 <= i < |run| :: !(run[i].op.Issue? && run[i].op.h == h)
  }

  predicate Spent(t: Table, h: Digest) { h in t.tokens ==> t.tokens[h].used }

  lemma {:induction false} SpentStaysSpent(t: Table, run: seq<Call>, h: Digest)
    requires Spent(t, h) && NeverIssues(run, h)
    ensures UseCount(t, run, h) == 0
    decreases |run|
  {
    if run != [] {
      assert !(run[0].op.Issue? && run[0].op.h == h);
      SpentStaysSpent(Apply(t, run[0].now, run[0].op).0, run[1..], h);
    }
  }

  /** A token not issued again is used up at most once, whichever calls try it. */
  lemma {:induction false} SingleUse(t: Table, run: seq<Call>, h: Digest)
    requires NeverIssues(run, h)
    ensures UseCount(t, run, h) <= 1
    decreases |run|
  {
    if run != [] {
      var t' := Apply(t, run[0].now, run[0].op).0;
      if Uses(t, run[0], h) {
        SpentStaysSpent(t', run[1..], h);
      } else {
        SingleUse(t', run[1..], h);
      }
    }
  }


  // ---- What ought to be accepted ---------------------------------------------------------------

  const EMPTY: Table := Table(map[], map[])

  function After(run: seq<Call>): Table {
    if run == [] then EMPTY else Apply(After(run[..|run| - 1]), run[|run| - 1].now, run[|run| - 1].op).0
  }

  /** The last issue of `h`, unless it was used up or its email erased since. */
  function Standing(run: seq<Call>, h: Digest): Option<Call> {
    if run == [] then None
    else
      var before, c := run[..|run| - 1], run[|run| - 1];
      StandingNext(Standing(before, h), before, c, h)
  }

  /** What stands for `h` after one more call. */
  function StandingNext(was: Option<Call>, before: seq<Call>, c: Call, h: Digest): Option<Call> {
    if c.op.Issue? && c.op.h == h then Some(c)
    else if UsesUp(was, before, c, h) then None
    else if was.Some? && c.op.EraseEmail? && was.value.op.Issue? && was.value.op.email == c.op.email then None
    else was
  }

  /** An issue for this purpose that has not expired, and for this email if one is given. */
  predicate IssuedFor(was: Option<Call>, now: int, email: Option<string>, purpose: string) {
    && was.Some? && was.value.op.Issue? && was.value.op.purpose == purpose
    && (email.Some? ==> was.value.op.email == email.value)
    && was.value.now + was.value.op.ttl > now
  }

  /** The call uses `h` up, going by what stood for it and what the cookie was bound to. */
  predicate UsesUp(was: Option<Call>, before: seq<Call>, c: Call, h: Digest) {
    match c.op
    case Verify(email, d, purpose) => d == h && IssuedFor(was, c.now, Some(email), purpose)
    case Consume(d, purpose) => d == h && IssuedFor(was, c.now, None, purpose)
    case VerifySignin(email, d, pending, purpose) =>
      d == h && IssuedFor(was, c.now, Some(email), purpose) && Bound(before, pending) == Some(h)
    case _ => false
  }

  /** The token a pending cookie was last bound to. */
  function Bound(run: seq<Call>, pending: Digest): Option<Digest> {
    if run == [] then None
    else
      var c := run[|run| - 1];
      if c.op.Bind? && c.op.pending == pending then Some(c.op.h) else Bound(run[..|run| - 1], pending)
  }

  /** The unused rows are exactly the standing issues, as they were issued. */
  predicate RowIsStanding(run: seq<Call>, h: Digest) {
    var t, s := After(run), Standing(run, h);
    && (s.Some? ==> s.value.op.Issue? && s.value.op.h == h)
    && (s.Some? <==> h in t.tokens && !t.tokens[h].used)
    && (s.Some? ==> var op := s.value.op; t.tokens[h] == Token(op.email, op.purpose, s.value.now, op.ttl, false))
  }

  lemma RunSnoc(run: seq<Call>, c: Call, h: Digest)
    ensures After(run + [c]) == Apply(After(run), c.now, c.op).0
    ensures Standing(run + [c], h) == StandingNext(Standing(run, h), run, c, h)
    ensures forall p :: Bound(run + [c], p)
              == if c.op.Bind? && c.op.pending == p then Some(c.op.h) else Bound(run, p)
  {
    hide Apply, UsesUp;
    assert (run + [c])[..|run|] == run;
  }

  lemma StepKeepsRow(before: seq<Call>, c: Call, h: Digest)
    requires RowIsStanding(before, h)
    ensures RowIsStanding(before + [c], h)
  {
    RunSnoc(before, c, h);
    if c.op.VerifySignin? {
      PendingIsBound(before, c.op.pending);
    }
    hide After, Standing, Bound;
  }

  lemma {:induction false} RowsAreStanding(run: seq<Call>, h: Digest)
    ensures RowIsStanding(run, h)
  {
    if run != [] {
      var before, c := run[..|run| - 1], run[|run| - 1];
      RowsAreStanding(before, h);
      hide RowIsStanding;
      StepKeepsRow(before, c, h);
      assert run == before + [c];
    }
  }

  lemma {:induction false} PendingIsBound(run: seq<Call>, pending: Digest)
    ensures Bound(run, pending) == (if pending in After(run).pending then Some(After(run).pending[pending]) else None)
  {
    if run != [] {
      PendingIsBound(run[..|run| - 1], pending);
    }
  }

  /** The issue that stands for `h` is for this email and purpose and has not expired. */
  predicate StandsFor(run: seq<Call>, now: int, email: string, h: Digest, purpose: string) {
    IssuedFor(Standing(run, h), now, Some(email), purpose)
  }

  /** A token is verified exactly when it was issued for that email and purpose, has not been used up
      by any path nor its email erased since, and has not expired. */
  lemma VerifiedExactlyWhen(run: seq<Call>, now: int, email: string, h: Digest, purpose: string)
    ensures Apply(After(run), now, Verify(email, h, purpose)).1 == Decision(StandsFor(run, now, email, h, purpose))
  {
    RowsAreStanding(run, h);
    hide After, Standing;
  }

  /** A sign-in token is accepted, and a peek promises so, exactly when it was issued for that email
      and purpose, has not been used up by any path since, has not expired, and the browser's pending
      cookie was last bound to it. */
  lemma SigninAcceptedExactlyWhen(run: seq<Call>, now: int, email: string, h: Digest, pending: Digest, purpose: string)
    ensures var accepted := StandsFor(run, now, email, h, purpose) && Bound(run, pending) == Some(h);
            && Apply(After(run), now, VerifySignin(email, h, pending, purpose)).1 == Decision(accepted)
            && Apply(After(run), now, PeekSignin(email, h, pending, purpose)).1 == Decision(accepted)
  {
    RowsAreStanding(run, h);
    PendingIsBound(run, pending);
    hide After, Standing, Bound;
  }

  /** Consuming or peeking by purpose alone yields the email of a standing, unexpired issue for that
      purpose, and nothing otherwise. */
  lemma ConsumedExactlyWhen(run: seq<Call>, now: int, h: Digest, purpose: string, email: string)
    ensures Apply(After(run), now, Consume(h, purpose)).1 == EmailFound(Some(email))
            <==> StandsFor(run, now, email, h, purpose)
    ensures Apply(After(run), now, Peek(h, purpose)).1 == EmailFound(Some(email))
            <==> StandsFor(run, now, email, h, purpose)
  {
    RowsAreStanding(run, h);
    hide After, Standing;
  }

  /** The run with its peeks left out. */
  function WithoutPeeks(run: seq<Call>): seq<Call> {
    if run == [] then []
    else
      var before, c := WithoutPeeks(run[..|run| - 1]), run[|run| - 1];
      if c.op.Peek? || c.op.PeekSignin? then before else before + [c]
  }

  lemma PeekIsNothing(t: Table, c: Call, was: Option<Call>, before: seq<Call>, h: Digest)
    requires c.op.Peek? || c.op.PeekSignin?
    ensures Apply(t, c.now, c.op).0 == t && StandingNext(was, before, c, h) == was
  {
  }

  lemma {:induction false} WithoutPeeksHasNone(run: seq<Call>)
    ensures forall c | c in WithoutPeeks(run) :: !c.op.Peek? && !c.op.PeekSignin?
  {
    if run != [] {
      WithoutPeeksHasNone(run[..|run| - 1]);
    }
  }

  lemma CallWithoutPeeks(before: seq<Call>, c: Call, h: Digest)
    requires After(before) == After(WithoutPeeks(before)) && Standing(before, h) == Standing(WithoutPeeks(before), h)
    requires forall p :: Bound(before, p) == Bound(WithoutPeeks(before), p)
    requires WithoutPeeks(before + [c]) == if c.op.Peek? || c.op.PeekSignin? then WithoutPeeks(before)
                                           else WithoutPeeks(before) + [c]
    ensures var run := before + [c];
            After(run) == After(WithoutPeeks(run)) && Standing(run, h) == Standing(WithoutPeeks(run), h)
    ensures forall p :: Bound(before + [c], p) == Bound(WithoutPeeks(before + [c]), p)
  {
    RunSnoc(before, c, h);
    hide After, Standing, Bound, WithoutPeeks, Apply;
    if c.op.Peek? || c.op.PeekSignin? {
      PeekIsNothing(After(before), c, Standing(before, h), before, h);
    } else {
      RunSnoc(WithoutPeeks(before), c, h);
    }
  }

  /** Peeks leave no trace: whatever follows is answered as if they had not been made. */
  lemma {:induction false} PeeksLeaveNoTrace(run: seq<Call>, h: Digest)
    ensures After(run) == After(WithoutPeeks(run)) && Standing(run, h) == Standing(WithoutPeeks(run), h)
    ensures forall p :: Bound(run, p) == Bound(WithoutPeeks(run), p)
    ensures forall c | c in WithoutPeeks(run) :: !c.op.Peek? && !c.op.PeekSignin?
  {
    WithoutPeeksHasNone(run);
    if run != [] {
      var before, c := run[..|run| - 1], run[|run| - 1];
      PeeksLeaveNoTrace(before, h);
      assert run == before + [c];
      assert WithoutPeeks(before + [c]) == if c.op.Peek? || c.op.PeekSignin? then WithoutPeeks(before)
                                           else WithoutPeeks(before) + [c] by { assert (before + [c])[..|before|] == before; }
      hide After, Standing, Bound, WithoutPeeks;
      CallWithoutPeeks(before, c, h);
    }
  }
}
