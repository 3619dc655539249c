/** The `sessions` table of `guest_store.py`: app sessions with an idle and a total limit. */
module AppSessions {
  import opened Text

  const SESSION_IDLE_S: int := 7 * 86400
  const SESSION_MAX_S: int := 30 * 86400

  type Digest = string

  datatype AppSession = AppSession(email: string, created: int, lastSeen: int)
  type Table = map<Digest, AppSession>

  datatype Op =
    | Create(id: Digest, email: string)
    | Get(id: Digest)
    | Touch(id: Digest)
    | Delete(id: Digest)
    | DeleteFor(email: string)

  datatype Answer = Done | Found(session: Option<AppSession>)

  predicate Live(s: AppSession, now: int) {
    s.lastSeen >= now - SESSION_IDLE_S && s.created >= now - SESSION_MAX_S
  }

  function Apply(t: Table, now: int, op: Op): (Table, Answer) {
    match op
    case Create(id, email) => (t[id := AppSession(email, now, now)], Done)
    case Get(id) => (t, Found(if id in t && Live(t[id], now) then Some(t[id]) else None))
    case Touch(id) => (if id in t then t[id := t[id].(lastSeen := now)] else t, Done)
    case Delete(id) => (map i | i in t && i != id :: t[i], Done)
    case DeleteFor(email) => (map i | i in t && t[i].email != email :: t[i], Done)
  }

  function Sweep(t: Table, now: int): Table {
    map i | i in t && Live(t[i], now) :: t[i]
  }

  /** Session ids are new, and a session is touched only while `get_session` would still
      return it, or when it is too old to come back. */
  predicate Proper(t: Table, now: int, op: Op) {
    match op
    case Create(id, _) => id !in t
    case Touch(id) => id in t ==> TouchIsSafe(t[id], now)
    case _ => true
  }

  predicate TouchIsSafe(s: AppSession, now: int) {
    s.lastSeen >= now - SESSION_IDLE_S || s.created < now - SESSION_MAX_S
  }

  ghost predicate Sim(all: Table, kept: Table, now: int) {
    && (forall i | i in kept :: i in all && all[i] == kept[i])
    && (forall i | i in all && Live(all[i], now) :: i in kept)
  }

  lemma CallAgrees(all: Table, kept: Table, now: int, op: Op)
    requires Sim(all, kept, now) && Proper(all, now, op)
    ensures Apply(all, now, op).1 == Apply(kept, now, op).1
    ensures Sim(Apply(all, now, op).0, Apply(kept, now, op).0, now)
  {
  }

  lemma SweepKeepsSim(all: Table, kept: Table, last: int, now: int)
    requires Sim(all, kept, last) && last <= now
    ensures Sim(all, kept, now) && Sim(all, Sweep(kept, now), now)
  {
  }

  /** The touch condition is exact: touching a session that is idle too long but not yet too
      old revives it, unless a sweep came first. */
  lemma TouchIsVisibleExactlyWhenUnsafe(t: Table, now: int, id: Digest)
    requires id in t
    ensures var touched := Apply(t, now, Touch(id)).0;
            var swept := Apply(Sweep(t, now), now, Touch(id)).0;
            Apply(touched, now, Get(id)).1 != Apply(swept, now, Get(id)).1 <==> !TouchIsSafe(t[id], now)
  {
    var s := t[id].(lastSeen := now);
    assert Apply(t, now, Touch(id)).0[id] == s;
    assert Live(s, now) <==> s.created >= now - SESSION_MAX_S;
  }


  /** A session last seen at 0 and touched after 8 days: found again, unless a sweep came first. */
  lemma TouchRevivesAnIdleSession(id: Digest, email: string)
    ensures var t, now := map[id := AppSession(email, 0, 0)], 8 * 86400;
            && Apply(t, now, Get(id)).1 == Found(None)
            && Apply(Apply(t, now, Touch(id)).0, now, Get(id)).1 == Found(Some(AppSession(email, 0, now)))
            && Apply(Apply(Sweep(t, now), now, Touch(id)).0, now, Get(id)).1 == Found(None)
  {
    var t, now := map[id := AppSession(email, 0, 0)], 8 * 86400;
    assert !Live(t[id], now);
    assert Sweep(t, now) == map[];
  }

  // ---- Sessions end for good ---------------------------------------------------------------------

  datatype Call = Call(now: int, op: Op)

  function Run(t: Table, run: seq<Call>): Table {
    if run == [] then t else Apply(Run(t, run[..|run| - 1]), run[|run| - 1].now, run[|run| - 1].op).0
  }

  /** Clock order, every touch made while the session may still be found, and `id` not made anew. */
  predicate Quiet(t: Table, start: int, run: seq<Call>, id: Digest) {
    run != [] ==>
      var before, c := run[..|run| - 1], run[|run| - 1];
      && Quiet(t, start, before, id)
      && c.now >= (if before == [] then start else before[|before| - 1].now)
      && !(c.op.Create? && c.op.id == id)
      && (c.op.Touch? && c.op.id in Run(t, before) ==> TouchIsSafe(Run(t, before)[c.op.id], c.now))
  }

  function End(start: int, run: seq<Call>): int { if run == [] then start else run[|run| - 1].now }

  /** A session once not found, expired or deleted, is never found again. */
  lemma {:induction false} GoneStaysGone(t: Table, start: int, run: seq<Call>, id: Digest)
    requires Apply(t, start, Get(id)).1 == Found(None) && Quiet(t, start, run, id)
    ensures Apply(Run(t, run), End(start, run), Get(id)).1 == Found(None)
  {
    if run != [] {
      GoneStaysGone(t, start, run[..|run| - 1], id);
    }
  }

  /** However often and whenever it is touched, a session is found for at most 30 days from its
      making, and at most seven days after the last touch. */
  lemma SessionsAreBounded(made: int, t: Table, run: seq<Call>, id: Digest, email: string, now: int)
    requires NotRemade(run, id)
    requires forall i | 0 <= i < |run| :: run[i].op == Touch(id) ==> run[i].now <= now
    ensures var found := Apply(Run(Apply(t, made, Create(id, email)).0, run), now, Get(id)).1.session;
            found.Some? ==>
              && found.value.email == email && found.value.created == made && now <= made + SESSION_MAX_S
              && ((exists i :: 0 <= i < |run| && run[i].op == Touch(id) && now <= run[i].now + SESSION_IDLE_S)
                  || now <= made + SESSION_IDLE_S)
  {
    RowOfSession(made, t, run, id, email);
  }

  predicate NotRemade(run: seq<Call>, id: Digest) {
    forall i | 0 <= i < |run| :: !(run[i].op.Create? && run[i].op.id == id)
  }

  lemma {:induction false} RowOfSession(made: int, t: Table, run: seq<Call>, id: Digest, email: string)
    requires NotRemade(run, id)
    ensures var t' := Run(Apply(t, made, Create(id, email)).0, run);
            id in t' ==>
              && t'[id].email == email && t'[id].created == made
              && (t'[id].lastSeen == made
                  || exists i :: 0 <= i < |run| && run[i].op == Touch(id) && run[i].now == t'[id].lastSeen)
  {
    if run != [] {
      var n := |run| - 1;
      assert NotRemade(run[..n], id) && !(run[n].op.Create? && run[n].op.id == id);
      RowOfSession(made, t, run[..n], id, email);
      var was := Run(Apply(t, made, Create(id, email)).0, run[..n]);
      if id in was && was[id].lastSeen != made {
        var i :| 0 <= i < n && run[..n][i].op == Touch(id) && run[..n][i].now == was[id].lastSeen;
        assert run[i].op == Touch(id);
      }
    }
  }

  // ---- Which sessions are found -------------------------------------------------------------------

  /** The operation ends a session `id` of `email`, or puts another in its place. */
  predicate Ends(op: Op, id: Digest, email: string) {
    (op.Create? && op.id == id) || op == Delete(id) || op == DeleteFor(email)
  }

  /** Call `m` made the session `id`, and nothing ended it since. */
  predicate MadeBy(run: seq<Call>, id: Digest, m: nat) {
    && m < |run| && run[m].op.Create? && run[m].op.id == id
    && forall i | m < i < |run| :: !Ends(run[i].op, id, run[m].op.email)
  }

  /** The last call from `m` on that touched the session, or `m` itself. */
  function LastSeen(run: seq<Call>, id: Digest, m: nat): (k: nat)
    requires m < |run|
    ensures m <= k < |run| && (k == m || run[k].op == Touch(id))
    ensures forall i | k < i < |run| :: run[i].op != Touch(id)
  {
    var n := |run| - 1;
    if n == m || run[n].op == Touch(id) then n else LastSeen(run[..n], id, m)
  }

  function RowOf(run: seq<Call>, id: Digest, m: nat): AppSession
    requires MadeBy(run, id, m)
  {
    AppSession(run[m].op.email, run[m].now, run[LastSeen(run, id, m)].now)
  }

  lemma {:induction false} MadeIsStored(run: seq<Call>, id: Digest, m: nat)
    requires MadeBy(run, id, m)
    ensures id in Run(map[], run) && Run(map[], run)[id] == RowOf(run, id, m)
  {
    var n := |run| - 1;
    if m < n {
      assert !Ends(run[n].op, id, run[m].op.email);
      MadeIsStored(run[..n], id, m);
    }
  }

  lemma {:induction false} StoredWasMade(run: seq<Call>, id: Digest) returns (m: nat)
    requires id in Run(map[], run)
    ensures MadeBy(run, id, m)
  {
    var n := |run| - 1;
    if run[n].op.Create? && run[n].op.id == id {
      m := n;
    } else {
      m := StoredWasMade(run[..n], id);
      MadeIsStored(run[..n], id, m);
    }
  }

  /** A session is found exactly when some call made it, neither a deletion of it or of its email nor
      another making came after, it was made in the last 30 days and last touched in the last 7. */
  lemma FoundExactlyWhen(run: seq<Call>, id: Digest, now: int, found: AppSession)
    ensures Apply(Run(map[], run), now, Get(id)).1 == Found(Some(found))
            <==> exists m :: MadeBy(run, id, m) && found == RowOf(run, id, m)
                          && now <= found.created + 30 * 86400 && now <= found.lastSeen + 7 * 86400
  {
    var t := Run(map[], run);
    if id in t {
      var m := StoredWasMade(run, id);
      MadeIsStored(run, id, m);
    }
    forall m | MadeBy(run, id, m)
      ensures id in t && t[id] == RowOf(run, id, m)
    {
      MadeIsStored(run, id, m);
    }
  }
}
