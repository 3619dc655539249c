/** The `agent_credentials` table of `access_store.py`: one live credential for each key (an
    email, or `guest:<email>`). Tokens are stored as SHA-256 digests, taken to be injective. */
module AgentCredentials {
  import opened Text

  type Key = string
  type Token = string

  datatype Credential = Credential(key: Key, nick: string, expires: int, revoked: bool)
  type Table = map<Token, Credential>

  /** The `UPDATE ... SET revoked=1 WHERE email=? AND revoked=0`. */
  function RevokeLive(t: Table, key: Key): Table {
    map k | k in t :: if t[k].key == key then t[k].(revoked := true) else t[k]
  }

  function LiveTokens(t: Table, key: Key): set<Token> {
    set k | k in t && t[k].key == key && !t[k].revoked
  }

  function Issue(t: Table, key: Key, nick: string, token: Token, expires: int): Table {
    RevokeLive(t, key)[token := Credential(key, nick, expires, false)]
  }

  function Purge(t: Table, key: Key): Table {
    map k | k in t && t[k].key != key :: t[k]
  }

  function Verify(t: Table, token: Token, now: int): Option<(Key, string)> {
    if token in t && !t[token].revoked && t[token].expires > now then Some((t[token].key, t[token].nick)) else None
  }

  // ---- What ought to verify ------------------------------------------------------------------

  /** What happened to credentials, in order. A rename revokes like a revocation. */
  datatype Event =
    | Issued(key: Key, nick: string, token: Token, expires: int)
    | Revoked(key: Key)
    | Purged(key: Key)

  function Apply(t: Table, e: Event): Table {
    match e
    case Issued(key, nick, token, expires) => Issue(t, key, nick, token, expires)
    case Revoked(key) => RevokeLive(t, key)
    case Purged(key) => Purge(t, key)
  }

  function After(events: seq<Event>): Table {
    if events == [] then map[] else Apply(After(events[..|events| - 1]), events[|events| - 1])
  }

  /** The last credential issued for `key`, unless the key was revoked or purged since. */
  function Current(events: seq<Event>, key: Key): Option<Event> {
    if events == [] then None
    else
      var e := events[|events| - 1];
      if e.key != key then Current(events[..|events| - 1], key)
      else if e.Issued? then Some(e) else None
  }

  /** Tokens are fresh: no two issues share one. */
  predicate FreshTokens(events: seq<Event>) {
    forall i, j | 0 <= i < j < |events| && events[i].Issued? && events[j].Issued? :: events[i].token != events[j].token
  }

  predicate WasIssued(events: seq<Event>, token: Token) {
    exists i :: 0 <= i < |events| && events[i].Issued? && events[i].token == token
  }

  /** The unrevoked rows are exactly the current credentials. */
  ghost predicate Inv(events: seq<Event>, t: Table) {
    && (forall k | k in t :: WasIssued(events, k))
    && (forall k | k in t && !t[k].revoked ::
          Current(events, t[k].key) == Some(Issued(t[k].key, t[k].nick, k, t[k].expires)))
    && (forall key: Key :: Current(events, key).Some? ==>
          var e := Current(events, key).value;
          e.Issued? && e.key == key && e.token in t && t[e.token] == Credential(key, e.nick, e.expires, false))
  }

  lemma CurrentSnoc(events: seq<Event>, e: Event, key: Key)
    ensures Current(events + [e], key)
         == if e.key != key then Current(events, key) else if e.Issued? then Some(e) else None
  {
    assert (events + [e])[..|events|] == events;
  }

  lemma WasIssuedSnoc(events: seq<Event>, e: Event, token: Token)
    ensures WasIssued(events + [e], token) <==> WasIssued(events, token) || (e.Issued? && e.token == token)
  {
    var all := events + [e];
    if WasIssued(events, token) {
      var i :| 0 <= i < |events| && events[i].Issued? && events[i].token == token;
      assert all[i] == events[i];
    }
    if e.Issued? && e.token == token {
      assert all[|events|] == e;
    }
    if i :| 0 <= i < |all| && all[i].Issued? && all[i].token == token {
      assert i < |events| ==> events[i] == all[i];
    }
  }

  lemma ApplyKeepsInv(events: seq<Event>, t: Table, e: Event)
    requires Inv(events, t) && (e.Issued? ==> !WasIssued(events, e.token))
    ensures Inv(events + [e], Apply(t, e))
  {
    hide Current, WasIssued;
    var all, t' := events + [e], Apply(t, e);
    forall k | k in t'
      ensures WasIssued(all, k)
    {
      WasIssuedSnoc(events, e, k);
    }
    forall k | k in t' && !t'[k].revoked
      ensures Current(all, t'[k].key) == Some(Issued(t'[k].key, t'[k].nick, k, t'[k].expires))
    {
      CurrentSnoc(events, e, t'[k].key);
    }
    forall key: Key | Current(all, key).Some?
      ensures var c := Current(all, key).value;
              c.Issued? && c.key == key && c.token in t' && t'[c.token] == Credential(key, c.nick, c.expires, false)
    {
      CurrentSnoc(events, e, key);
    }
  }

  lemma {:induction false} AfterInv(events: seq<Event>)
    requires FreshTokens(events)
    ensures Inv(events, After(events))
  {
    if events != [] {
      var n := |events| - 1;
      var before, e := events[..n], events[n];
      assert FreshTokens(before) by {
        forall i, j | 0 <= i < j < n && before[i].Issued? && before[j].Issued?
          ensures before[i].token != before[j].token
        {
          assert before[i] == events[i] && before[j] == events[j];
        }
      }
      AfterInv(before);
      if e.Issued? {
        forall i | 0 <= i < n && before[i].Issued?
          ensures before[i].token != e.token
        {
          assert before[i] == events[i];
        }
      }
      ApplyKeepsInv(before, After(before), e);
      assert events == before + [e];
    }
  }

  /** In every reachable state a key has at most one unrevoked credential. */
  lemma OneLiveCredential(events: seq<Event>, key: Key)
    requires FreshTokens(events)
    ensures forall a, b | a in LiveTokens(After(events), key) && b in LiveTokens(After(events), key) :: a == b
  {
    AfterInv(events);
  }

  /** A token verifies exactly when it is the last one issued for its key, no revoke, purge or
      rename of that key came after, and it has not expired. */
  lemma VerifiesExactlyWhenCurrent(events: seq<Event>, token: Token, now: int, key: Key, nick: string)
    requires FreshTokens(events)
    ensures Verify(After(events), token, now) == Some((key, nick))
            <==> (exists expires :: Current(events, key) == Some(Issued(key, nick, token, expires)) && expires > now)
  {
    AfterInv(events);
    var t := After(events);
    if Verify(t, token, now) == Some((key, nick)) {
      assert Current(events, key) == Some(Issued(key, nick, token, t[token].expires));
    }
    if expires :| Current(events, key) == Some(Issued(key, nick, token, expires)) && expires > now {
      assert t[token] == Credential(key, nick, expires, false);
    }
  }
}
