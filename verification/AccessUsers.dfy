/** The `users`, `nickname_holders` and `admin_imports` tables of `access_store.py`. Emails are
    the store's normalised ones. */
module AccessUsers {
  import opened Text
  import opened Nickname

  type Email = string

  datatype Role = Admin | OtherRole(name: string)
  datatype UserState = Approved | OtherState(name: string)
  datatype User = User(role: Role, state: UserState, nickname: Option<string>)

  /** `holders` has every nickname ever held and whose it was; `imported` the ledger. */
  datatype Tables = Tables(users: map<Email, User>, holders: map<string, Email>, imported: set<Email>)

  const EMPTY: Tables := Tables(map[], map[], {})

  datatype Reason = Bad(why: Refusal) | Taken | NoUser | Chosen | LastAdmin | BadEmail

  /** `renamed`: the user had another nickname before, so the agent credential goes. */
  datatype Outcome = Ok(renamed: bool) | Refused(reason: Reason)

  // ---- Nicknames --------------------------------------------------------------------------------

  /** `_refuse_if_held`: another user has it now, or had it once. */
  predicate Held(t: Tables, email: Email, nick: string) {
    || (exists e | e in t.users :: e != email && t.users[e].nickname == Some(nick))
    || (nick in t.holders && t.holders[nick] != email)
  }

  /** `UPDATE users SET nickname` and `INSERT OR IGNORE INTO nickname_holders`. */
  function Give(t: Tables, email: Email, nick: string): Tables
    requires email in t.users
  {
    t.(users := t.users[email := t.users[email].(nickname := Some(nick))],
       holders := if nick in t.holders then t.holders else t.holders[nick := email])
  }

  /** `_set_nickname_in` */
  function SetIn(t: Tables, email: Email, nick: string): (Tables, Outcome)
    requires email in t.users
  {
    var previous := t.users[email].nickname;
    if previous == Some(nick) then (t, Ok(false))
    else if Held(t, email, nick) then (t, Refused(Taken))
    else (Give(t, email, nick), Ok(previous.Some?))
  }

  function SetNickname(t: Tables, email: Email, raw: string): (Tables, Outcome) {
    match Normalize(raw)
    case No(why) => (t, Refused(Bad(why)))
    case Nick(nick) => if email !in t.users then (t, Refused(NoUser)) else SetIn(t, email, nick)
  }

  function ClaimNickname(t: Tables, email: Email, raw: string): (Tables, Outcome) {
    match Normalize(raw)
    case No(why) => (t, Refused(Bad(why)))
    case Nick(nick) =>
      if email !in t.users then (t, Refused(NoUser))
      else if t.users[email].nickname.Some? then (t, Refused(Chosen))
      else if Held(t, email, nick) then (t, Refused(Taken))
      else (Give(t, email, nick), Ok(false))
  }

  // ---- Roles --------------------------------------------------------------------------------------

  predicate IsAdmin(u: User) { u.role == Admin && u.state == Approved }

  function Admins(t: Tables): set<Email> { set e | e in t.users && IsAdmin(t.users[e]) }

  /** `_upsert_user` */
  function Upsert(t: Tables, email: Email, role: Role, state: UserState): Tables {
    t.(users := t.users[email := User(role, state, if email in t.users then t.users[email].nickname else None)])
  }

  /** `set_user_keeping_admin`: a refusal anywhere rolls the whole transaction back. */
  function SetKeepingAdmin(t: Tables, email: Email, role: Role, state: UserState, nickname: Option<string>)
    : (Tables, Outcome)
  {
    if ':' in email then (t, Refused(BadEmail))
    else if nickname.Some? && Normalize(nickname.value).No? then (t, Refused(Bad(Normalize(nickname.value).why)))
    else
      var was := email in t.users && IsAdmin(t.users[email]);
      var stays := role == Admin && state == Approved;
      if was && !stays && |Admins(t)| <= 1 then (t, Refused(LastAdmin))
      else if nickname == None then (Upsert(t, email, role, state), Ok(false))
      else
        var (t', outcome) := SetIn(Upsert(t, email, role, state), email, Normalize(nickname.value).nick);
        if outcome.Refused? then (t, outcome) else (t', outcome)
  }

  /** `import_admins` for one address. */
  function ImportOne(t: Tables, email: Email): Tables {
    if email == "" || email in t.imported then t
    else Upsert(t, email, Admin, Approved).(imported := t.imported + {email})
  }

  function ImportAdmins(t: Tables, emails: seq<Email>): Tables
    decreases |emails|
  {
    if emails == [] then t else ImportAdmins(ImportOne(t, emails[0]), emails[1..])
  }

  datatype Op =
    | SetNick(email: Email, raw: string)
    | Claim(email: Email, raw: string)
    | Set(email: Email, role: Role, state: UserState, nickname: Option<string>)
    | Import(emails: seq<Email>)
    | SetUnguarded(email: Email, role: Role, state: UserState)

  function Apply(t: Tables, op: Op): (Tables, Outcome) {
    match op
    case SetNick(email, raw) => SetNickname(t, email, raw)
    case Claim(email, raw) => ClaimNickname(t, email, raw)
    case Set(email, role, state, nickname) => SetKeepingAdmin(t, email, role, state, nickname)
    case Import(emails) => (ImportAdmins(t, emails), Ok(false))
    case SetUnguarded(email, role, state) =>
      if ':' in email then (t, Refused(BadEmail)) else (Upsert(t, email, role, state), Ok(false))
  }

  function After(ops: seq<Op>): Tables {
    if ops == [] then EMPTY else Apply(After(ops[..|ops| - 1]), ops[|ops| - 1]).0
  }

  // ---- Ownership for life ------------------------------------------------------------------------

  /** Every current nickname is a stored form and reserved to its own user. */
  ghost predicate Reserved(t: Tables) {
    forall e | e in t.users && t.users[e].nickname.Some? ::
      var nick := t.users[e].nickname.value;
      nick in t.holders && t.holders[nick] == e && Lower(nick) == nick
  }

  /** The holder relation only grows and never changes an owner. */
  ghost predicate Grows(t: Tables, t': Tables) {
    forall n | n in t.holders :: n in t'.holders && t'.holders[n] == t.holders[n]
  }

  lemma GiveKeepsReserved(t: Tables, email: Email, nick: string)
    requires Reserved(t) && email in t.users && !Held(t, email, nick) && Lower(nick) == nick
    ensures Reserved(Give(t, email, nick)) && Grows(t, Give(t, email, nick))
  {
  }

  lemma UpsertKeepsReserved(t: Tables, email: Email, role: Role, state: UserState)
    requires Reserved(t)
    ensures Reserved(Upsert(t, email, role, state)) && Grows(t, Upsert(t, email, role, state))
  {
  }

  lemma {:induction false} ImportKeepsReserved(t: Tables, emails: seq<Email>)
    requires Reserved(t)
    ensures Reserved(ImportAdmins(t, emails)) && Grows(t, ImportAdmins(t, emails))
    decreases |emails|
  {
    if emails != [] {
      UpsertKeepsReserved(t, emails[0], Admin, Approved);
      ImportKeepsReserved(ImportOne(t, emails[0]), emails[1..]);
    }
  }

  lemma SetInKeepsReserved(t: Tables, email: Email, raw: string)
    requires Reserved(t) && email in t.users && Normalize(raw).Nick?
    ensures var t' := SetIn(t, email, Normalize(raw).nick).0; Reserved(t') && Grows(t, t')
  {
    var nick := Normalize(raw).nick;
    StoredFormsAreCanonical(raw, raw);
    if !Held(t, email, nick) {
      GiveKeepsReserved(t, email, nick);
    }
  }

  lemma ApplyKeepsReserved(t: Tables, op: Op)
    requires Reserved(t)
    ensures Reserved(Apply(t, op).0) && Grows(t, Apply(t, op).0)
  {
    hide Held, Normalize, Admins;
    match op {
      case SetNick(email, raw) =>
        if Normalize(raw).Nick? && email in t.users { SetInKeepsReserved(t, email, raw); }
      case Claim(email, raw) =>
        if Normalize(raw).Nick? && email in t.users {
          StoredFormsAreCanonical(raw, raw);
          if !Held(t, email, Normalize(raw).nick) { GiveKeepsReserved(t, email, Normalize(raw).nick); }
        }
      case Set(email, role, state, nickname) =>
        UpsertKeepsReserved(t, email, role, state);
        if nickname.Some? && Normalize(nickname.value).Nick? {
          SetInKeepsReserved(Upsert(t, email, role, state), email, nickname.value);
        }
      case Import(emails) => ImportKeepsReserved(t, emails);
      case SetUnguarded(email, role, state) => UpsertKeepsReserved(t, email, role, state);
    }
  }

  lemma {:induction false} AfterReserved(ops: seq<Op>)
    ensures Reserved(After(ops))
  {
    if ops != [] {
      AfterReserved(ops[..|ops| - 1]);
      ApplyKeepsReserved(After(ops[..|ops| - 1]), ops[|ops| - 1]);
    }
  }

  /** Over every run: no two users' nicknames agree, even without case, and each is reserved
      to its own user. */
  lemma NicknamesAreOwned(ops: seq<Op>, a: Email, b: Email)
    requires var t := After(ops);
             && a in t.users && b in t.users && t.users[a].nickname.Some? && t.users[b].nickname.Some?
    ensures var t := After(ops);
            var nick := t.users[a].nickname.value;
            && nick in t.holders && t.holders[nick] == a
            && (Lower(nick) == Lower(t.users[b].nickname.value) ==> a == b)
  {
    AfterReserved(ops);
  }

  /** Over every run: whoever held a nickname once is its only possible owner ever after. */
  lemma {:induction false} HoldersAreForLife(ops: seq<Op>, more: seq<Op>)
    ensures Grows(After(ops), After(ops + more))
  {
    if more == [] {
      assert ops + more == ops;
    } else {
      var n := |more| - 1;
      HoldersAreForLife(ops, more[..n]);
      assert (ops + more)[..|ops + more| - 1] == ops + more[..n];
      AfterReserved(ops + more[..n]);
      ApplyKeepsReserved(After(ops + more[..n]), more[n]);
    }
  }

  /** A refused operation changes nothing; a claim never changes an existing nickname, and
      succeeds exactly for a known user without one whose choice is acceptable and free. */
  lemma RefusalsAndClaims(t: Tables, op: Op)
    requires Reserved(t)
    ensures Apply(t, op).1.Refused? ==> Apply(t, op).0 == t
    ensures op.Claim? ==> forall e | e in t.users && t.users[e].nickname.Some? ::
              e in Apply(t, op).0.users && Apply(t, op).0.users[e].nickname == t.users[e].nickname
    ensures op.Claim? ==>
              (Apply(t, op).1.Ok? <==>
                 && Normalize(op.raw).Nick? && op.email in t.users && t.users[op.email].nickname == None
                 && (Normalize(op.raw).nick in t.holders ==> t.holders[Normalize(op.raw).nick] == op.email))
    ensures op.Claim? && Apply(t, op).1.Ok? ==> Apply(t, op) == (Named(t, op.email, Normalize(op.raw).nick), Ok(false))
  {
    hide Normalize, Admins;
    if op.Claim? && Apply(t, op).1.Ok? && Normalize(op.raw).nick in t.holders {
      assert t.holders[Normalize(op.raw).nick := op.email] == t.holders;
    }
  }

  /** The user has this nickname, reserved to it, and nothing else is different. */
  function Named(t: Tables, email: Email, nick: string): Tables
    requires email in t.users
  {
    var u := t.users[email];
    Tables(t.users[email := User(u.role, u.state, Some(nick))], t.holders[nick := email], t.imported)
  }

  /** An admin's set succeeds exactly for a known user and an acceptable nickname nobody else has or
      ever had; then the user has it, keeps everything else, and nobody else is touched. */
  lemma SetNicknameExactly(t: Tables, email: Email, raw: string)
    requires Reserved(t)
    ensures var (t', outcome) := SetNickname(t, email, raw);
            && (outcome.Ok? <==>
                  && Normalize(raw).Nick? && email in t.users
                  && (Normalize(raw).nick in t.holders ==> t.holders[Normalize(raw).nick] == email))
            && (outcome.Ok? ==>
                  && t'.users == t.users[email := t.users[email].(nickname := Some(Normalize(raw).nick))]
                  && t'.holders == t.holders[Normalize(raw).nick := email] && t'.imported == t.imported
                  && (outcome.renamed <==> t.users[email].nickname.Some?
                                           && t.users[email].nickname != Some(Normalize(raw).nick)))
  {
    hide Normalize, Lower;
    if Normalize(raw).Nick? && email in t.users && t.users[email].nickname == Some(Normalize(raw).nick) {
      assert t.users[email := t.users[email]] == t.users;
    }
  }

  // ---- What a set and an import leave -----------------------------------------------------------------

  /** The user has this role, this state and this nickname, or the one it had if none is given. */
  function Placed(t: Tables, email: Email, role: Role, state: UserState, nick: Option<string>): Tables {
    var kept := if email in t.users then t.users[email].nickname else None;
    var t' := Tables(t.users[email := User(role, state, kept)], t.holders, t.imported);
    if nick == None then t' else Named(t', email, nick.value)
  }

  /** A guarded set succeeds exactly for an address without a colon, an acceptable nickname (or none)
      that nobody else has or ever had, and a change that leaves an approved admin if there was one;
      then the user has the role, the state and the nickname, and nobody else is touched. */
  lemma SetExactly(t: Tables, email: Email, role: Role, state: UserState, nickname: Option<string>)
    requires Reserved(t)
    ensures var (t', outcome) := SetKeepingAdmin(t, email, role, state, nickname);
            var nick := if nickname == None || Normalize(nickname.value).No? then None
                        else Some(Normalize(nickname.value).nick);
            && (outcome.Ok? <==>
                  && ':' !in email && (nickname.Some? ==> nick.Some?)
                  && (nick.Some? && nick.value in t.holders ==> t.holders[nick.value] == email)
                  && !(Admins(t) != {} && Admins(Placed(t, email, role, state, None)) == {}))
            && (outcome.Ok? ==> t' == Placed(t, email, role, state, nick))
            && (outcome.Ok? ==>
                  (outcome.renamed <==> nick.Some? && email in t.users && t.users[email].nickname.Some?
                                        && t.users[email].nickname != nick))
            && (outcome.Refused? ==> t' == t)
  {
    if ':' !in email && (nickname.Some? ==> Normalize(nickname.value).Nick?) {
      LastAdminExactly(t, email, role, state, nickname);
      assert Upsert(t, email, role, state) == Placed(t, email, role, state, None);
      hide Normalize, Admins;
      if nickname.Some? {
        SetInExactly(t, email, role, state, Normalize(nickname.value).nick);
      }
    }
  }

  lemma SetInExactly(t: Tables, email: Email, role: Role, state: UserState, nick: string)
    requires Reserved(t)
    ensures var (t', outcome) := SetIn(Upsert(t, email, role, state), email, nick);
            && (outcome.Ok? <==> nick in t.holders ==> t.holders[nick] == email)
            && (outcome.Ok? ==> t' == Placed(t, email, role, state, Some(nick)))
            && (outcome.Ok? ==>
                  (outcome.renamed <==> email in t.users && t.users[email].nickname.Some?
                                        && t.users[email].nickname != Some(nick)))
  {
    var up := Upsert(t, email, role, state);
    if up.users[email].nickname == Some(nick) {
      assert t.holders[nick := email] == t.holders;
      assert up.users[email := up.users[email]] == up.users;
    }
  }

  /** The unguarded set, which no check refuses but that of the address: role and state as given, the
      nickname kept. */
  lemma UnguardedSetExactly(t: Tables, email: Email, role: Role, state: UserState)
    ensures Apply(t, SetUnguarded(email, role, state))
         == if ':' in email then (t, Refused(BadEmail)) else (Placed(t, email, role, state, None), Ok(false))
  {
  }

  /** An import makes every address not imported before an approved admin, nickname kept, and enters
      it in the ledger; nobody else is touched. */
  lemma {:induction false} ImportExactly(t: Tables, emails: seq<Email>)
    ensures var t' := ImportAdmins(t, emails);
            && (forall e :: e in t'.imported <==> e in t.imported || (e in emails && e != ""))
            && t'.holders == t.holders
            && (forall e :: e in t'.users <==> e in t.users || (e in emails && e != "" && e !in t.imported))
            && (forall e | e in t'.users ::
                  t'.users[e] ==
                    if e in emails && e != "" && e !in t.imported
                    then User(Admin, Approved, if e in t.users then t.users[e].nickname else None)
                    else t.users[e])
    decreases |emails|
  {
    if emails != [] {
      ImportExactly(ImportOne(t, emails[0]), emails[1..]);
      assert forall e :: e in emails <==> e == emails[0] || e in emails[1..];
    }
  }

  // ---- The last admin ------------------------------------------------------------------------------

  /** A guarded change is refused for this reason exactly when it would leave no approved admin
      where there is one. */
  lemma LastAdminExactly(t: Tables, email: Email, role: Role, state: UserState, nickname: Option<string>)
    requires ':' !in email && (nickname.Some? ==> Normalize(nickname.value).Nick?)
    ensures SetKeepingAdmin(t, email, role, state, nickname).1 == Refused(LastAdmin)
            <==> Admins(t) != {} && Admins(Upsert(t, email, role, state)) == {}
  {
    hide Normalize, Held;
    var t' := Upsert(t, email, role, state);
    var stays := role == Admin && state == Approved;
    if email in Admins(t) && !stays {
      assert Admins(t') == Admins(t) - {email};
      assert |Admins(t')| == |Admins(t)| - 1;
    } else if stays {
      assert email in Admins(t');
    } else {
      assert Admins(t') == Admins(t);
    }
  }

  lemma GiveKeepsAdmins(t: Tables, email: Email, nick: string)
    requires email in t.users
    ensures Admins(Give(t, email, nick)) == Admins(t)
  {
  }

  lemma {:induction false} ImportKeepsAdmins(t: Tables, emails: seq<Email>)
    ensures Admins(t) <= Admins(ImportAdmins(t, emails))
    decreases |emails|
  {
    if emails != [] {
      assert Admins(t) <= Admins(ImportOne(t, emails[0]));
      ImportKeepsAdmins(ImportOne(t, emails[0]), emails[1..]);
    }
  }

  /** Whatever the guarded operations do, once there is an approved admin there always is. */
  lemma AdminsNeverVanish(t: Tables, op: Op)
    requires Admins(t) != {} && !op.SetUnguarded?
    ensures Admins(Apply(t, op).0) != {}
  {
    match op {
      case SetNick(email, raw) => SetInAdmins(t, email, raw);
      case Claim(email, raw) =>
        if Normalize(raw).Nick? && email in t.users { GiveKeepsAdmins(t, email, Normalize(raw).nick); }
      case Set(email, role, state, nickname) =>
        if ':' !in email && (nickname.Some? ==> Normalize(nickname.value).Nick?) {
          LastAdminExactly(t, email, role, state, nickname);
          if nickname.Some? { SetInAdmins(Upsert(t, email, role, state), email, nickname.value); }
        }
      case Import(emails) =>
        ImportKeepsAdmins(t, emails);
        var e :| e in Admins(t);
        assert e in Admins(ImportAdmins(t, emails));
    }
  }

  lemma SetInAdmins(t: Tables, email: Email, raw: string)
    ensures Normalize(raw).Nick? && email in t.users ==>
              Admins(SetIn(t, email, Normalize(raw).nick).0) == Admins(t)
  {
    if Normalize(raw).Nick? && email in t.users {
      GiveKeepsAdmins(t, email, Normalize(raw).nick);
    }
  }

  /** A deliberate demotion survives a re-import: each address is imported once ever. */
  lemma {:induction false} ReimportChangesNothing(t: Tables, emails: seq<Email>)
    requires forall i | 0 <= i < |emails| :: emails[i] == "" || emails[i] in t.imported
    ensures ImportAdmins(t, emails) == t
    decreases |emails|
  {
    if emails != [] {
      assert ImportOne(t, emails[0]) == t;
      ReimportChangesNothing(t, emails[1..]);
    }
  }
}
