/** `access_store.py`, the store itself: one method per transaction over the user and credential
    tables, and what a rename means for the agent credential. */
module AccessStore {
  import opened Text
  import opened Nickname
  import U = AccessUsers
  import C = AgentCredentials

  datatype Db = Db(tables: U.Tables, creds: C.Table)

  const EMPTY: Db := Db(U.EMPTY, map[])

  datatype Op =
    | UserOp(op: U.Op)
    | Issue(key: C.Key, nick: string, token: C.Token, expires: int)
    | Revoke(key: C.Key)
    | Purge(key: C.Key)

  /** `_record_nickname`: a rename revokes the live credential in the same transaction. */
  function Apply(db: Db, op: Op): (Db, U.Outcome) {
    match op
    case UserOp(u) =>
      var (t, outcome) := U.Apply(db.tables, u);
      (Db(t, if outcome.Ok? && outcome.renamed then C.RevokeLive(db.creds, u.email) else db.creds), outcome)
    case Issue(key, nick, token, expires) =>
      (db.(creds := C.Issue(db.creds, key, nick, token, expires)), U.Ok(false))
    case Revoke(key) => (db.(creds := C.RevokeLive(db.creds, key)), U.Ok(false))
    case Purge(key) => (db.(creds := C.Purge(db.creds, key)), U.Ok(false))
  }

  function Run(db: Db, ops: seq<Op>): Db {
    if ops == [] then db else Apply(Run(db, ops[..|ops| - 1]), ops[|ops| - 1]).0
  }

  // ---- The credential table sees a run of credential events ----------------------------------

  /** What `op` does to credentials when it runs in `db`. */
  function EventsOf(db: Db, op: Op): seq<C.Event> {
    match op
    case UserOp(u) =>
      var outcome := U.Apply(db.tables, u).1;
      if outcome.Ok? && outcome.renamed then [C.Revoked(u.email)] else []
    case Issue(key, nick, token, expires) => [C.Issued(key, nick, token, expires)]
    case Revoke(key) => [C.Revoked(key)]
    case Purge(key) => [C.Purged(key)]
  }

  function Events(ops: seq<Op>): seq<C.Event> {
    if ops == [] then []
    else
      var before := ops[..|ops| - 1];
      Events(before) + EventsOf(Run(EMPTY, before), ops[|ops| - 1])
  }

  lemma EmptyAfter()
    ensures C.After([]) == map[]
  {
  }

  lemma AfterSnoc(events: seq<C.Event>, e: C.Event)
    ensures C.After(events + [e]) == C.Apply(C.After(events), e)
  {
    assert (events + [e])[..|events|] == events;
  }

  lemma OneStepFollows(db: Db, op: Op, events: seq<C.Event>)
    requires db.creds == C.After(events)
    ensures Apply(db, op).0.creds == C.After(events + EventsOf(db, op))
  {
    hide C.After, U.Apply, C.RevokeLive, C.Issue, C.Purge;
    var more := EventsOf(db, op);
    if more == [] {
      assert events + more == events;
    } else {
      assert more == [more[0]];
      AfterSnoc(events, more[0]);
    }
  }

  lemma {:induction false} CredentialsFollowEvents(ops: seq<Op>)
    ensures Run(EMPTY, ops).creds == C.After(Events(ops))
  {
    hide C.After, Apply, EventsOf;
    if ops == [] {
      EmptyAfter();
    } else {
      var n := |ops| - 1;
      CredentialsFollowEvents(ops[..n]);
      OneStepFollows(Run(EMPTY, ops[..n]), ops[n], Events(ops[..n]));
    }
  }

  /** In every run of the whole store a token verifies exactly when it is the last one issued for
      its key, with no revoke, purge or rename of that key since, and has not expired. */
  lemma StoreVerifiesExactlyWhenCurrent(ops: seq<Op>, token: C.Token, now: int, key: C.Key, nick: string)
    requires C.FreshTokens(Events(ops))
    ensures C.Verify(Run(EMPTY, ops).creds, token, now) == Some((key, nick))
            <==> (exists expires ::
                    C.Current(Events(ops), key) == Some(C.Issued(key, nick, token, expires)) && expires > now)
  {
    CredentialsFollowEvents(ops);
    C.VerifiesExactlyWhenCurrent(Events(ops), token, now, key, nick);
  }

  function UserOps(ops: seq<Op>): seq<U.Op> {
    if ops == [] then []
    else
      var last := ops[|ops| - 1];
      UserOps(ops[..|ops| - 1]) + (if last.UserOp? then [last.op] else [])
  }

  /** The user tables are what their own operations make of them, so every result about
      `AccessUsers.After` holds of the whole store. */
  lemma {:induction false} UserTablesFollowUserOps(ops: seq<Op>)
    ensures Run(EMPTY, ops).tables == U.After(UserOps(ops))
  {
    hide U.Apply;
    if ops != [] {
      var n := |ops| - 1;
      UserTablesFollowUserOps(ops[..n]);
      if ops[n].UserOp? {
        assert (UserOps(ops[..n]) + [ops[n].op])[..|UserOps(ops[..n])|] == UserOps(ops[..n]);
      } else {
        assert UserOps(ops) == UserOps(ops[..n]);
      }
    }
  }

  // ---- A rename cuts the agent off -------------------------------------------------------------

  function NicknameOf(db: Db, email: U.Email): Option<string> {
    if email in db.tables.users then db.tables.users[email].nickname else None
  }

  predicate LiveFor(db: Db, token: C.Token, key: C.Key) {
    token in db.creds && db.creds[token].key == key && !db.creds[token].revoked
  }

  lemma {:induction false} ImportKeepsNicknames(t: U.Tables, emails: seq<U.Email>, email: U.Email)
    ensures email in t.users ==>
              && email in U.ImportAdmins(t, emails).users
              && U.ImportAdmins(t, emails).users[email].nickname == t.users[email].nickname
    decreases |emails|
  {
    if emails != [] {
      ImportKeepsNicknames(U.ImportOne(t, emails[0]), emails[1..], email);
    }
  }

  /** A user operation changes an existing nickname only by a rename of that user. */
  lemma OnlyRenamesChange(t: U.Tables, op: U.Op, email: U.Email)
    requires email in t.users && t.users[email].nickname.Some?
    ensures var (t', outcome) := U.Apply(t, op);
            && email in t'.users
            && (t'.users[email].nickname != t.users[email].nickname ==>
                  outcome.Ok? && outcome.renamed && op.email == email)
  {
    hide Normalize, U.Admins, U.Held;
    if op.Import? {
      ImportKeepsNicknames(t, op.emails, email);
    }
  }

  lemma StepKeepsNickname(db: Db, op: Op, token: C.Token, key: C.Key)
    requires NicknameOf(db, key).Some? && !(op.Issue? && op.token == token)
    requires LiveFor(Apply(db, op).0, token, key)
    ensures LiveFor(db, token, key) && NicknameOf(Apply(db, op).0, key) == NicknameOf(db, key)
  {
    if op.UserOp? {
      OnlyRenamesChange(db.tables, op.op, key);
    }
  }

  /** A token still live proves that its user was never renamed since it was issued: at every moment
      since, the user had either no nickname yet or the one of now. No rename, by any path, leaves an
      old credential working. */
  lemma {:induction false} LiveTokenMeansSameNickname(db: Db, nick: string, token: C.Token, key: C.Key,
                                                      expires: int, later: seq<Op>, n: nat)
    requires n <= |later| && forall i | 0 <= i < |later| :: later[i].Issue? ==> later[i].token != token
    requires LiveFor(Run(Apply(db, Issue(key, nick, token, expires)).0, later), token, key)
    ensures var issued := Apply(db, Issue(key, nick, token, expires)).0;
            NicknameOf(Run(issued, later[..n]), key) in {None, NicknameOf(Run(issued, later), key)}
  {
    var issued := Apply(db, Issue(key, nick, token, expires)).0;
    if n == |later| {
      assert later[..n] == later;
    } else if NicknameOf(Run(issued, later[..n]), key).Some? {
      var before := later[..|later| - 1];
      assert before[..n] == later[..n];
      NicknamesStay(issued, key, before, n);
      StepKeepsNickname(Run(issued, before), later[|later| - 1], token, key);
      LiveTokenMeansSameNickname(db, nick, token, key, expires, before, n);
    }
  }

  /** Nobody who has a nickname ever loses it altogether. */
  lemma {:induction false} NicknamesStay(db: Db, email: U.Email, ops: seq<Op>, n: nat)
    requires n <= |ops| && NicknameOf(Run(db, ops[..n]), email).Some?
    ensures NicknameOf(Run(db, ops), email).Some?
    decreases |ops|
  {
    if n == |ops| {
      assert ops[..n] == ops;
    } else {
      var before, last := ops[..|ops| - 1], ops[|ops| - 1];
      assert before[..n] == ops[..n];
      NicknamesStay(db, email, before, n);
      if last.UserOp? {
        StaysNamed(Run(db, before).tables, last.op, email);
      }
    }
  }

  lemma StaysNamed(t: U.Tables, op: U.Op, email: U.Email)
    requires email in t.users && t.users[email].nickname.Some?
    ensures email in U.Apply(t, op).0.users && U.Apply(t, op).0.users[email].nickname.Some?
  {
    hide Normalize, U.Admins, U.Held;
    if op.Import? {
      ImportKeepsNicknames(t, op.emails, email);
    }
  }

  // ---- The store ---------------------------------------------------------------------------------

  class AccessStore {
    var users: map<U.Email, U.User>
    var holders: map<string, U.Email>
    var imported: set<U.Email>
    var creds: map<C.Token, C.Credential>

    function Contents(): Db
      reads this
    {
      Db(U.Tables(users, holders, imported), creds)
    }

    constructor ()
      ensures Contents() == EMPTY
    {
      users, holders, imported, creds := map[], map[], {}, map[];
    }

    /** `_upsert_user` */
    method UpsertUser(email: U.Email, role: U.Role, state: U.UserState)
      modifies this`users
      ensures Contents() == Db(U.Upsert(old(Contents()).tables, email, role, state), old(creds))
    {
      var nickname := None;
      if email in users {
        nickname := users[email].nickname;
      }
      users := users[email := U.User(role, state, nickname)];
    }

    /** `set_user`, the one change no last-admin check guards. */
    method SetUser(email: U.Email, role: U.Role, state: U.UserState) returns (outcome: U.Outcome)
      modifies this
      ensures (Contents(), outcome) == Apply(old(Contents()), UserOp(U.SetUnguarded(email, role, state)))
    {
      if ':' in email {
        return U.Refused(U.BadEmail);
      }
      UpsertUser(email, role, state);
      return U.Ok(false);
    }

    /** `_refuse_if_held` */
    method IsHeld(email: U.Email, nick: string) returns (held: bool)
      ensures held == U.Held(Contents().tables, email, nick)
    {
      held := exists e :: e in users && e != email && users[e].nickname == Some(nick);
      if nick in holders && holders[nick] != email {
        held := true;
      }
    }

    /** `_record_nickname` */
    method RecordNickname(email: U.Email, nick: string, previous: Option<string>)
      modifies this`holders, this`creds
      ensures holders == if nick in old(holders) then old(holders) else old(holders)[nick := email]
      ensures creds == if previous.Some? then C.RevokeLive(old(creds), email) else old(creds)
    {
      if nick !in holders {
        holders := holders[nick := email];
      }
      if previous == None {
        return;
      }
      creds := C.RevokeLive(creds, email);
    }

    /** `_set_nickname_in`: inside the caller's transaction. */
    method SetNicknameIn(email: U.Email, nick: string) returns (outcome: U.Outcome)
      requires email in users
      modifies this`users, this`holders, this`creds
      ensures (Contents().tables, outcome) == U.SetIn(old(Contents()).tables, email, nick)
      ensures creds == if outcome.Ok? && outcome.renamed then C.RevokeLive(old(creds), email) else old(creds)
    {
      var previous := users[email].nickname;
      if previous == Some(nick) {
        return U.Ok(false);
      }
      var held := IsHeld(email, nick);
      if held {
        return U.Refused(U.Taken);
      }
      users := users[email := users[email].(nickname := Some(nick))];
      RecordNickname(email, nick, previous);
      return U.Ok(previous.Some?);
    }

    method SetNickname(email: U.Email, raw: string) returns (outcome: U.Outcome)
      modifies this
      ensures (Contents(), outcome) == Apply(old(Contents()), UserOp(U.SetNick(email, raw)))
    {
      var normal := Normalize(raw);
      if normal.No? {
        return U.Refused(U.Bad(normal.why));
      }
      if email !in users {
        return U.Refused(U.NoUser);
      }
      outcome := SetNicknameIn(email, normal.nick);
    }

    method ClaimNickname(email: U.Email, raw: string) returns (outcome: U.Outcome)
      modifies this
      ensures (Contents(), outcome) == Apply(old(Contents()), UserOp(U.Claim(email, raw)))
    {
      var normal := Normalize(raw);
      if normal.No? {
        return U.Refused(U.Bad(normal.why));
      }
      if email !in users {
        return U.Refused(U.NoUser);
      }
      if users[email].nickname.Some? {
        return U.Refused(U.Chosen);
      }
      var held := IsHeld(email, normal.nick);
      if held {
        return U.Refused(U.Taken);
      }
      users := users[email := users[email].(nickname := Some(normal.nick))];
      RecordNickname(email, normal.nick, None);
      return U.Ok(false);
    }

    /** An error after the first write rolls the transaction back. */
    method SetUserKeepingAdmin(email: U.Email, role: U.Role, state: U.UserState, nickname: Option<string>)
      returns (outcome: U.Outcome)
      modifies this
      ensures (Contents(), outcome) == Apply(old(Contents()), UserOp(U.Set(email, role, state, nickname)))
    {
      hide Normalize, U.Held;
      if ':' in email {
        return U.Refused(U.BadEmail);
      }
      var nick := None;
      if nickname.Some? {
        var normal := Normalize(nickname.value);
        if normal.No? {
          return U.Refused(U.Bad(normal.why));
        }
        nick := Some(normal.nick);
      }
      var wasAdmin := email in users && users[email].role == U.Admin && users[email].state == U.Approved;
      var stays := role == U.Admin && state == U.Approved;
      if wasAdmin && !stays {
        var admins := set e | e in users && U.IsAdmin(users[e]);
        if |admins| <= 1 {
          return U.Refused(U.LastAdmin);
        }
      }
      var before := users;
      UpsertUser(email, role, state);
      outcome := U.Ok(false);
      if nick.Some? {
        outcome := SetNicknameIn(email, nick.value);
        if outcome.Refused? {
          users := before;
        }
      }
    }

    method ImportAdmins(emails: seq<U.Email>) returns (count: nat)
      modifies this
      ensures Contents() == Apply(old(Contents()), UserOp(U.Import(emails))).0
      ensures |imported| == |old(imported)| + count
    {
      count := 0;
      var i := 0;
      ghost var whole := U.ImportAdmins(Contents().tables, emails);
      while i < |emails|
        invariant 0 <= i <= |emails| && creds == old(creds)
        invariant U.ImportAdmins(Contents().tables, emails[i..]) == whole
        invariant |imported| == |old(imported)| + count
      {
        var email := emails[i];
        ghost var was := Contents().tables;
        assert emails[i..][1..] == emails[i + 1..];
        if email != "" && email !in imported {
          imported := imported + {email};
          UpsertUser(email, U.Admin, U.Approved);
          count := count + 1;
        }
        assert Contents().tables == U.ImportOne(was, email);
        i := i + 1;
      }
    }

    method IssueAgentCredential(key: C.Key, nick: string, token: C.Token, now: int, ttl: int)
      modifies this
      ensures Contents() == Apply(old(Contents()), Issue(key, nick, token, now + ttl)).0
    {
      creds := C.RevokeLive(creds, key);
      creds := creds[token := C.Credential(key, nick, now + ttl, false)];
    }

    /** The row count is the number of live credentials there were. */
    method RevokeAgentCredential(key: C.Key) returns (n: nat)
      modifies this
      ensures Contents() == Apply(old(Contents()), Revoke(key)).0
      ensures n == |C.LiveTokens(old(creds), key)| && C.LiveTokens(creds, key) == {}
    {
      n := |C.LiveTokens(creds, key)|;
      creds := C.RevokeLive(creds, key);
    }

    method PurgeAgentCredentials(key: C.Key)
      modifies this
      ensures Contents() == Apply(old(Contents()), Purge(key)).0
      ensures forall token | token in creds :: creds[token].key != key
    {
      creds := map token | token in creds && creds[token].key != key :: creds[token];
    }

    method VerifyAgentCredential(token: C.Token, now: int) returns (found: Option<(C.Key, string)>)
      ensures found == C.Verify(creds, token, now)
    {
      found := None;
      if token in creds {
        var row := creds[token];
        if !row.revoked && row.expires > now {
          found := Some((row.key, row.nick));
        }
      }
    }
  }
}
