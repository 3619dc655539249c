/** `guest_store.py`, the store itself: one method per transaction over the tables. */
module GuestStore {
  import opened Text
  import T = SigninTokens
  import S = AppSessions
  import D = TrustedDevices
  import A = AttemptRows
  import opened RetentionSweep

  /** The rows a sweep removed, per category. */
  datatype Counts = Counts(tokens: nat, sessions: nat, attempts: nat, devices: nat, budgets: nat)

  class GuestStore {
    var tokens: map<T.Digest, T.Token>
    var pending: map<T.Digest, T.Digest>
    var sessions: map<S.Digest, S.AppSession>
    var devices: map<D.DeviceKey, D.Device>
    var attempts: seq<A.Attempt>
    var blocks: map<string, int>

    function Contents(): Db
      reads this
    {
      Db(T.Table(tokens, pending), sessions, devices, A.Table(attempts, blocks))
    }

    constructor ()
      ensures Contents() == EMPTY
    {
      tokens, pending, sessions, devices, attempts, blocks := map[], map[], map[], map[], [], map[];
    }

    method IssueToken(now: int, h: T.Digest, email: string, purpose: string, ttl: int)
      modifies this
      ensures Contents() == Apply(old(Contents()), now, TokenOp(T.Issue(h, email, purpose, ttl))).0
    {
      tokens := tokens[h := T.Token(email, purpose, now, ttl, false)];
    }

    /** Select a live row, then mark it used. */
    method ConsumeToken(now: int, h: T.Digest, purpose: string) returns (email: Option<string>)
      modifies this
      ensures Apply(old(Contents()), now, TokenOp(T.Consume(h, purpose)))
           == (Contents(), Token(T.EmailFound(email)))
    {
      if h !in tokens {
        return None;
      }
      var row := tokens[h];
      if row.purpose != purpose || row.used || row.issued + row.ttl <= now {
        return None;
      }
      tokens := tokens[h := row.(used := true)];
      email := Some(row.email);
    }

    /** One UPDATE: true iff a live row of this email and purpose was marked used. */
    method VerifyToken(now: int, email: string, h: T.Digest, purpose: string) returns (ok: bool)
      modifies this
      ensures Apply(old(Contents()), now, TokenOp(T.Verify(email, h, purpose))) == (Contents(), Token(T.Decision(ok)))
    {
      ok := false;
      if h in tokens {
        var row := tokens[h];
        if row.email == email && row.purpose == purpose && !row.used && row.issued + row.ttl > now {
          tokens := tokens[h := row.(used := true)];
          ok := true;
        }
      }
    }

    /** The email of a live row, which stays as it is. */
    method PeekToken(now: int, h: T.Digest, purpose: string) returns (email: Option<string>)
      ensures Apply(Contents(), now, TokenOp(T.Peek(h, purpose))) == (Contents(), Token(T.EmailFound(email)))
    {
      email := None;
      if h in tokens {
        var row := tokens[h];
        if row.purpose == purpose && !row.used && row.issued + row.ttl > now {
          email := Some(row.email);
        }
      }
    }

    method BindSignin(now: int, cookie: T.Digest, h: T.Digest)
      modifies this
      ensures Contents() == Apply(old(Contents()), now, TokenOp(T.Bind(cookie, h))).0
    {
      pending := pending[cookie := h];
    }

    /** One UPDATE whose WHERE holds the whole test; true iff it matched a row. */
    method VerifySigninToken(now: int, email: string, h: T.Digest, cookie: T.Digest, purpose: string) returns (ok: bool)
      modifies this
      ensures Apply(old(Contents()), now, TokenOp(T.VerifySignin(email, h, cookie, purpose)))
           == (Contents(), Token(T.Decision(ok)))
    {
      ok := false;
      if h in tokens && cookie in pending && pending[cookie] == h {
        var row := tokens[h];
        if row.email == email && row.purpose == purpose && !row.used && row.issued + row.ttl > now {
          tokens := tokens[h := row.(used := true)];
          ok := true;
        }
      }
    }

    method CreateSession(now: int, id: S.Digest, email: string)
      modifies this
      ensures Contents() == Apply(old(Contents()), now, SessionOp(S.Create(id, email))).0
    {
      sessions := sessions[id := S.AppSession(email, now, now)];
    }

    method GetSession(now: int, id: S.Digest) returns (found: Option<S.AppSession>)
      ensures Apply(Contents(), now, SessionOp(S.Get(id))).1 == Session(S.Found(found))
    {
      found := None;
      if id in sessions {
        var row := sessions[id];
        if row.lastSeen >= now - S.SESSION_IDLE_S && row.created >= now - S.SESSION_MAX_S {
          found := Some(row);
        }
      }
    }

    method TouchSession(now: int, id: S.Digest)
      modifies this
      ensures Contents() == Apply(old(Contents()), now, SessionOp(S.Touch(id))).0
    {
      if id in sessions {
        sessions := sessions[id := sessions[id].(lastSeen := now)];
      }
    }

    /** Move the good rows of the browser's earlier id to the new one, delete what the earlier id
        still has, and insert the new row. */
    method AddTrustedDevice(now: int, email: string, minted: D.Digest, previous: Option<D.Digest>)
      modifies this
      ensures Contents() == Apply(old(Contents()), now, DeviceOp(D.Add(email, minted, previous))).0
    {
      if previous.Some? {
        MoveDevices(now, email, minted, previous.value);
        DeleteDevices(previous.value);
        SameDevices(devices, D.Move(old(devices), now, email, minted, previous.value), old(devices), now, email, minted,
                    previous.value);
      }
      devices := devices[D.DeviceKey(minted, email) := D.Device(now, now)];
    }

    /** `UPDATE trusted_devices SET device_hash`, row by row. */
    method MoveDevices(now: int, email: string, minted: D.Digest, previous: D.Digest)
      modifies this`devices
      ensures forall k: D.DeviceKey ::
                var m := Moved(old(devices), Movable(old(devices), now, email, previous), minted, previous, k);
                (k in devices <==> m.Some?) && (k in devices ==> devices[k] == m.value)
    {
      var todo := Movable(devices, now, email, previous);
      ghost var all := todo;
      while todo != {}
        invariant todo <= all
        invariant forall k: D.DeviceKey ::
                    var m := Moved(old(devices), all - todo, minted, previous, k);
                    (k in devices <==> m.Some?) && (k in devices ==> devices[k] == m.value)
        decreases todo
      {
        var k :| k in todo;
        var row := devices[k];
        devices := devices - {k};
        devices := devices[D.DeviceKey(minted, k.email) := row];
        todo := todo - {k};
      }
    }

    /** `DELETE FROM trusted_devices WHERE device_hash=?` */
    method DeleteDevices(digest: D.Digest)
      modifies this`devices
      ensures forall k: D.DeviceKey :: k in devices <==> k in old(devices) && k.digest != digest
      ensures forall k | k in devices :: devices[k] == old(devices)[k]
    {
      devices := map k | k in devices && k.digest != digest :: devices[k];
    }

    method SigninBudgetTake(now: int, email: string) returns (ok: bool)
      modifies this
      ensures Apply(old(Contents()), now, AttemptOp(A.TakeBudget(email))) == (Contents(), Attempt(A.Decision(ok)))
    {
      var key := A.ByEmail(email);
      var strict := email in blocks && now - blocks[email] < A.QUIET_S;
      var limit, window := A.SIGNIN_LIMIT, A.SIGNIN_WINDOW;
      if strict {
        limit, window := A.STRICT_LIMIT, A.STRICT_WINDOW;
      }
      var used := CountAttempts(now, A.SigninEmail, key, window);
      if used >= limit {
        blocks := blocks[email := now];
        return false;
      }
      attempts := attempts + [A.Attempt(A.SigninEmail, key, now)];
      return true;
    }

    method CountAttempts(now: int, kind: A.Kind, key: A.Key, window: int) returns (n: nat)
      ensures n == A.CountRows(attempts, kind, key, now - window)
    {
      n := A.CountRows(attempts, kind, key, now - window);
    }

    /** Find the newest row of the key, and delete it. */
    method UnrecordAttempt(now: int, kind: A.Kind, key: A.Key)
      modifies this
      ensures Contents() == Apply(old(Contents()), now, AttemptOp(A.Unrecord(kind, key))).0
      ensures || (attempts == old(attempts) && forall i | 0 <= i < |attempts| :: !A.IsFor(attempts[i], kind, key))
              || exists i :: 0 <= i < |old(attempts)| && A.IsFor(old(attempts)[i], kind, key)
                          && attempts == old(attempts)[..i] + old(attempts)[i + 1..]
                          && forall j | i < j < |old(attempts)| :: !A.IsFor(old(attempts)[j], kind, key)
    {
      var i := |attempts|;
      while i > 0 && !A.IsFor(attempts[i - 1], kind, key)
        invariant 0 <= i <= |attempts|
        invariant forall j | i <= j < |attempts| :: !A.IsFor(attempts[j], kind, key)
      {
        i := i - 1;
      }
      A.DropLatestTakesNewest(attempts, i, kind, key);
      if i > 0 {
        attempts := attempts[..i - 1] + attempts[i..];
      }
    }

    method DeleteOldTokens(now: int) returns (n: nat)
      modifies this`tokens
      ensures tokens == T.Sweep(T.Table(old(tokens), pending), now).tokens
      ensures |tokens| + n == |old(tokens)|
    {
      n := 0;
      var todo := tokens.Keys;
      while todo != {}
        invariant todo <= tokens.Keys
        invariant forall h :: h in tokens <==>
                    h in old(tokens) && (h in todo || old(tokens)[h].issued >= now - T.TOKEN_RETENTION_S)
        invariant forall h | h in tokens :: tokens[h] == old(tokens)[h]
        invariant |tokens| + n == |old(tokens)|
        decreases todo
      {
        var h :| h in todo;
        todo := todo - {h};
        if tokens[h].issued < now - T.TOKEN_RETENTION_S {
          OneFewer(tokens, h);
          tokens := tokens - {h};
          n := n + 1;
        }
      }
    }

    /** Bindings to tokens that are gone go with them. */
    method DeleteOrphanBindings()
      modifies this`pending
      ensures pending == map p | p in old(pending) && old(pending)[p] in tokens :: old(pending)[p]
    {
      var todo := pending.Keys;
      while todo != {}
        invariant todo <= pending.Keys
        invariant forall p :: p in pending <==> p in old(pending) && (p in todo || old(pending)[p] in tokens)
        invariant forall p | p in pending :: pending[p] == old(pending)[p]
        decreases todo
      {
        var p :| p in todo;
        todo := todo - {p};
        if pending[p] !in tokens {
          pending := pending - {p};
        }
      }
    }

    method DeleteOldSessions(now: int) returns (n: nat)
      modifies this`sessions
      ensures sessions == S.Sweep(old(sessions), now)
      ensures |sessions| + n == |old(sessions)|
    {
      n := 0;
      var todo := sessions.Keys;
      while todo != {}
        invariant todo <= sessions.Keys
        invariant forall i :: i in sessions <==> i in old(sessions) && (i in todo || S.Live(old(sessions)[i], now))
        invariant forall i | i in sessions :: sessions[i] == old(sessions)[i]
        invariant |sessions| + n == |old(sessions)|
        decreases todo
      {
        var i :| i in todo;
        todo := todo - {i};
        var row := sessions[i];
        if row.lastSeen < now - S.SESSION_IDLE_S || row.created < now - S.SESSION_MAX_S {
          OneFewer(sessions, i);
          sessions := sessions - {i};
          n := n + 1;
        }
      }
    }

    method DeleteOldAttempts(now: int) returns (n: nat)
      modifies this`attempts
      ensures attempts == A.KeepFrom(old(attempts), now - A.ATTEMPT_RETENTION_S)
      ensures |attempts| + n == |old(attempts)|
    {
      n := 0;
      var kept: seq<A.Attempt> := [];
      for i := 0 to |attempts|
        invariant kept == A.KeepFrom(attempts[..i], now - A.ATTEMPT_RETENTION_S) && |kept| + n == i
        invariant attempts == old(attempts)
      {
        assert attempts[..i + 1][..i] == attempts[..i];
        if attempts[i].ts < now - A.ATTEMPT_RETENTION_S {
          n := n + 1;
        } else {
          kept := kept + [attempts[i]];
        }
      }
      assert attempts[..|attempts|] == attempts;
      attempts := kept;
    }

    method DeleteOldDevices(now: int) returns (n: nat)
      modifies this`devices
      ensures devices == D.Sweep(old(devices), now)
      ensures |devices| + n == |old(devices)|
    {
      n := 0;
      var todo := devices.Keys;
      while todo != {}
        invariant todo <= devices.Keys
        invariant forall k :: k in devices <==> k in old(devices) && (k in todo || D.TrustedAt(old(devices)[k], now))
        invariant forall k | k in devices :: devices[k] == old(devices)[k]
        invariant |devices| + n == |old(devices)|
        decreases todo
      {
        var k :| k in todo;
        todo := todo - {k};
        if devices[k].created <= now - D.TRUSTED_DEVICE_S {
          OneFewer(devices, k);
          devices := devices - {k};
          n := n + 1;
        }
      }
    }

    method DeleteOldBlocks(now: int) returns (n: nat)
      modifies this`blocks
      ensures blocks == A.SweepBlocks(old(blocks), now)
      ensures |blocks| + n == |old(blocks)|
    {
      n := 0;
      var todo := blocks.Keys;
      while todo != {}
        invariant todo <= blocks.Keys
        invariant forall e :: e in blocks <==> e in old(blocks) && (e in todo || old(blocks)[e] > now - A.QUIET_S)
        invariant forall e | e in blocks :: blocks[e] == old(blocks)[e]
        invariant |blocks| + n == |old(blocks)|
        decreases todo
      {
        var e :| e in todo;
        todo := todo - {e};
        if blocks[e] <= now - A.QUIET_S {
          OneFewer(blocks, e);
          blocks := blocks - {e};
          n := n + 1;
        }
      }
    }

    /** The deletions of `sweep`, table by table in its order, with their row counts. */
    method SweepRows(now: int) returns (counts: Counts)
      modifies this
      ensures Contents() == Sweep(old(Contents()), now)
      ensures |tokens| + counts.tokens == |old(tokens)| && |sessions| + counts.sessions == |old(sessions)|
      ensures |attempts| + counts.attempts == |old(attempts)|
      ensures |devices| + counts.devices == |old(devices)| && |blocks| + counts.budgets == |old(blocks)|
    {
      hide S.Sweep, D.Sweep, A.KeepFrom, A.SweepBlocks;
      var t := DeleteOldTokens(now);
      DeleteOrphanBindings();
      var s := DeleteOldSessions(now);
      var a := DeleteOldAttempts(now);
      var d := DeleteOldDevices(now);
      var b := DeleteOldBlocks(now);
      counts := Counts(t, s, a, d, b);
    }
  }

  /** The rows a replaced browser id hands over. */
  function Movable(t: D.Table, now: int, email: string, previous: D.Digest): set<D.DeviceKey> {
    set k | k in t && k.digest == previous && k.email != email && t[k].created > now - D.TRUSTED_DEVICE_S
  }

  /** The row under `k` once the rows `moved` have been handed over. */
  function Moved(t: D.Table, moved: set<D.DeviceKey>, minted: D.Digest, previous: D.Digest, k: D.DeviceKey)
    : Option<D.Device>
  {
    var from := D.DeviceKey(previous, k.email);
    if k.digest == minted && from in moved && from in t then Some(t[from])
    else if k in t && k !in moved then Some(t[k])
    else None
  }

  /** Handing rows over and deleting the rest of the earlier id is the replacement. */
  lemma SameDevices(devices: D.Table, spec: D.Table, was: D.Table, now: int, email: string,
                    minted: D.Digest, previous: D.Digest)
    requires spec == D.Move(was, now, email, minted, previous)
    requires forall k: D.DeviceKey ::
               var m := Moved(was, Movable(was, now, email, previous), minted, previous, k);
               (k in devices <==> m.Some? && k.digest != previous) && (k in devices ==> devices[k] == m.value)
    ensures devices == spec
  {
    forall k: D.DeviceKey
      ensures k in devices <==> k in spec
      ensures k in devices ==> devices[k] == spec[k]
    {
      D.MoveIs(was, now, email, minted, previous, k);
    }
  }

  lemma OneFewer<K, V>(m: map<K, V>, k: K)
    requires k in m
    ensures |m - {k}| == |m| - 1
  {
    assert (m - {k}).Keys == m.Keys - {k};
    assert |m - {k}| == |(m - {k}).Keys| && |m| == |m.Keys|;
  }
}
