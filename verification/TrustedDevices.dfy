/** The `trusted_devices` table of `guest_store.py`: one browser may be trusted for several
    emails, each row for a year from the trusting sign-in. */
module TrustedDevices {
  import opened Text

  const TRUSTED_DEVICE_S: int := 365 * 86400

  type Digest = string

  datatype DeviceKey = DeviceKey(digest: Digest, email: string)
  datatype Device = Device(created: int, lastUsed: int)
  type Table = map<DeviceKey, Device>

  datatype Op =
    | Add(email: string, minted: Digest, previous: Option<Digest>)
    | IsTrusted(d: Digest, email: string)
    | Touch(d: Digest, email: string)
    | DeleteFor(email: string)

  datatype Answer = Done | Decision(ok: bool)

  predicate TrustedAt(d: Device, now: int) {
    d.created > now - TRUSTED_DEVICE_S
  }

  /** Where the row under `k` comes from when `previous` becomes `minted`: its good rows for
      other emails move, its other rows go. */
  function Source(t: Table, now: int, email: string, minted: Digest, previous: Digest, k: DeviceKey): Option<DeviceKey> {
    var moved := DeviceKey(previous, k.email);
    if minted != previous && k.digest == minted && moved in t && k.email != email && TrustedAt(t[moved], now)
    then Some(moved)
    else if k.digest != previous && k in t then Some(k)
    else None
  }

  function Move(t: Table, now: int, email: string, minted: Digest, previous: Digest): Table {
    var keys := t.Keys + set k | k in t :: DeviceKey(minted, k.email);
    map k | k in keys && Source(t, now, email, minted, previous, k).Some?
      :: t[Source(t, now, email, minted, previous, k).value]
  }

  function Apply(t: Table, now: int, op: Op): (Table, Answer) {
    match op
    case Add(email, minted, previous) =>
      var moved := if previous.Some? then Move(t, now, email, minted, previous.value) else t;
      (moved[DeviceKey(minted, email) := Device(now, now)], Done)
    case IsTrusted(d, email) =>
      var k := DeviceKey(d, email);
      (t, Decision(k in t && TrustedAt(t[k], now)))
    case Touch(d, email) =>
      var k := DeviceKey(d, email);
      (if k in t then t[k := t[k].(lastUsed := now)] else t, Done)
    case DeleteFor(email) => (map k | k in t && k.email != email :: t[k], Done)
  }

  function Sweep(t: Table, now: int): Table {
    map k | k in t && TrustedAt(t[k], now) :: t[k]
  }

  /** A minted browser id is new. */
  predicate Proper(t: Table, op: Op) {
    op.Add? ==> op.previous != Some(op.minted) && forall k | k in t :: k.digest != op.minted
  }

  ghost predicate Sim(all: Table, kept: Table, now: int) {
    && (forall k | k in kept :: k in all && all[k] == kept[k])
    && (forall k | k in all && TrustedAt(all[k], now) :: k in kept)
  }

  lemma MoveIs(t: Table, now: int, email: string, minted: Digest, previous: Digest, k: DeviceKey)
    ensures var s := Source(t, now, email, minted, previous, k);
            var m := Move(t, now, email, minted, previous);
            (k in m <==> s.Some?) && (s.Some? ==> m[k] == t[s.value])
  {
    var s := Source(t, now, email, minted, previous, k);
    if s.Some? && k !in t {
      assert k == DeviceKey(minted, s.value.email);
    }
  }

  lemma MoveKeepsSim(all: Table, kept: Table, now: int, email: string, minted: Digest, previous: Digest)
    requires Sim(all, kept, now)
    requires previous != minted && forall k | k in all :: k.digest != minted
    ensures Sim(Move(all, now, email, minted, previous), Move(kept, now, email, minted, previous), now)
  {
    var all', kept' := Move(all, now, email, minted, previous), Move(kept, now, email, minted, previous);
    forall k: DeviceKey
      ensures k in kept' ==> k in all' && all'[k] == kept'[k]
      ensures k in all' && TrustedAt(all'[k], now) ==> k in kept'
    {
      MoveIs(all, now, email, minted, previous, k);
      MoveIs(kept, now, email, minted, previous, k);
    }
  }

  lemma InsertKeepsSim(all: Table, kept: Table, now: int, k: DeviceKey, d: Device)
    requires Sim(all, kept, now)
    ensures Sim(all[k := d], kept[k := d], now)
  {
  }

  lemma CallAgrees(all: Table, kept: Table, now: int, op: Op)
    requires Sim(all, kept, now) && Proper(all, op)
    ensures Apply(all, now, op).1 == Apply(kept, now, op).1
    ensures Sim(Apply(all, now, op).0, Apply(kept, now, op).0, now)
  {
    match op {
      case Add(email, minted, previous) =>
        var k, d := DeviceKey(minted, email), Device(now, now);
        if previous.Some? {
          MoveKeepsSim(all, kept, now, email, minted, previous.value);
          InsertKeepsSim(Move(all, now, email, minted, previous.value),
                         Move(kept, now, email, minted, previous.value), now, k, d);
        } else {
          InsertKeepsSim(all, kept, now, k, d);
        }
      case _ =>
    }
  }

  lemma SweepKeepsSim(all: Table, kept: Table, last: int, now: int)
    requires Sim(all, kept, last) && last <= now
    ensures Sim(all, kept, now) && Sim(all, Sweep(kept, now), now)
  {
  }


  // ---- Trust comes from sign-ins -----------------------------------------------------------------

  datatype Call = Call(now: int, op: Op)

  function After(run: seq<Call>): Table {
    if run == [] then map[] else Apply(After(run[..|run| - 1]), run[|run| - 1].now, run[|run| - 1].op).0
  }

  /** A trusting sign-in for `email` was made at `at`. */
  predicate SignedIn(run: seq<Call>, email: string, at: int) {
    exists i :: 0 <= i < |run| && run[i].op.Add? && run[i].op.email == email && run[i].now == at
  }

  lemma SignedInLasts(run: seq<Call>, n: nat, email: string, at: int)
    requires n <= |run| && SignedIn(run[..n], email, at)
    ensures SignedIn(run, email, at)
  {
    var i :| 0 <= i < n && run[..n][i].op.Add? && run[..n][i].op.email == email && run[..n][i].now == at;
    assert run[i].op.Add?;
  }

  lemma {:induction false} RowsComeFromSignins(run: seq<Call>, k: DeviceKey)
    requires k in After(run)
    ensures SignedIn(run, k.email, After(run)[k].created)
  {
    hide SignedIn, Source, Move;
    var n := |run| - 1;
    var t, c := After(run[..n]), run[n];
    var from := k;
    if c.op.Add? && k == DeviceKey(c.op.minted, c.op.email) {
      assert SignedIn(run, k.email, c.now) by { JustSignedIn(run, k.email); }
    } else {
      if c.op.Add? && c.op.previous.Some? {
        MoveIs(t, c.now, c.op.email, c.op.minted, c.op.previous.value, k);
        from := MovedFrom(t, c.now, c.op.email, c.op.minted, c.op.previous.value, k);
      }
      RowsComeFromSignins(run[..n], from);
      SignedInLasts(run, n, k.email, t[from].created);
    }
  }

  lemma JustSignedIn(run: seq<Call>, email: string)
    requires run != [] && run[|run| - 1].op.Add? && run[|run| - 1].op.email == email
    ensures SignedIn(run, email, run[|run| - 1].now)
  {
  }

  lemma MovedFrom(t: Table, now: int, email: string, minted: Digest, previous: Digest, k: DeviceKey)
    returns (from: DeviceKey)
    requires Source(t, now, email, minted, previous, k).Some?
    ensures from in t && from.email == k.email && Source(t, now, email, minted, previous, k) == Some(from)
  {
    from := Source(t, now, email, minted, previous, k).value;
  }

  /** Moving never extends trust: a browser is trusted for an email only within a year of a
      trusting sign-in for that very email. */
  lemma TrustNeedsARecentSignin(run: seq<Call>, now: int, d: Digest, email: string) returns (at: int)
    requires Apply(After(run), now, IsTrusted(d, email)).1 == Decision(true)
    ensures SignedIn(run, email, at) && at > now - TRUSTED_DEVICE_S
  {
    RowsComeFromSignins(run, DeviceKey(d, email));
    at := After(run)[DeviceKey(d, email)].created;
  }

  /** A sign-in that replaces a browser id kills the old id and hands its trust for other emails,
      and nothing else, to the new one. */
  lemma ReplacingHandsTrustOver(t: Table, now: int, email: string, minted: Digest, previous: Digest, other: string)
    requires previous != minted && forall k | k in t :: k.digest != minted
    ensures var t' := Apply(t, now, Add(email, minted, Some(previous))).0;
            && Apply(t', now, IsTrusted(previous, other)).1 == Decision(false)
            && Apply(t', now, IsTrusted(minted, email)).1 == Decision(true)
            && (other != email ==>
                  Apply(t', now, IsTrusted(minted, other)).1 == Apply(t, now, IsTrusted(previous, other)).1)
  {
    MoveIs(t, now, email, minted, previous, DeviceKey(previous, other));
    MoveIs(t, now, email, minted, previous, DeviceKey(minted, other));
    hide Move;
  }

  /** Touching notes the use of that row and changes nothing else. */
  lemma TouchExactly(t: Table, now: int, d: Digest, email: string)
    ensures var t', k := Apply(t, now, Touch(d, email)).0, DeviceKey(d, email);
            && t'.Keys == t.Keys && (k in t ==> t'[k] == Device(t[k].created, now))
            && forall j | j in t && j != k :: t'[j] == t[j]
  {
  }

  // ---- Who is trusted --------------------------------------------------------------------------------

  /** Every sign-in mints an id of its own, and no browser shows it before. */
  predicate NewIds(run: seq<Call>) {
    run != [] ==>
      var before, c := run[..|run| - 1], run[|run| - 1];
      && NewIds(before)
      && (c.op.Add? ==> c.op.minted !in Minted(before) && c.op.previous != Some(c.op.minted))
  }

  function Minted(run: seq<Call>): set<Digest> {
    if run == [] then {}
    else
      var c := run[|run| - 1];
      Minted(run[..|run| - 1]) + if c.op.Add? then {c.op.minted} else {}
  }

  /** The browser id that carries the trust of sign-in `i` at the end: the one it minted, until a
      sign-in for another email replaces that id while the trust is good. */
  function Carrier(run: seq<Call>, i: nat): Option<Digest>
    requires i < |run| && run[i].op.Add?
    decreases |run|
  {
    var n := |run| - 1;
    if i == n then Some(run[i].op.minted) else CarriedOn(Carrier(run[..n], i), run[i], run[n])
  }

  function CarriedOn(was: Option<Digest>, signin: Call, c: Call): Option<Digest>
    requires signin.op.Add?
  {
    if was == None then None
    else if c.op == DeleteFor(signin.op.email) then None
    else if c.op.Add? && c.op.previous == was then
      if c.op.email != signin.op.email && signin.now > c.now - TRUSTED_DEVICE_S then Some(c.op.minted) else None
    else was
  }

  /** Sign-in `i` was for `email`, and `d` carries its trust. */
  predicate Carries(run: seq<Call>, i: nat, d: Digest, email: string) {
    i < |run| && run[i].op.Add? && run[i].op.email == email && Carrier(run, i) == Some(d)
  }

  lemma {:induction false} CarriersAreMinted(run: seq<Call>, i: nat)
    requires i < |run| && run[i].op.Add?
    ensures Carrier(run, i).Some? ==> Carrier(run, i).value in Minted(run)
    decreases |run|
  {
    if i < |run| - 1 {
      CarriersAreMinted(run[..|run| - 1], i);
    }
  }

  lemma {:induction false} RowsAreMinted(run: seq<Call>, k: DeviceKey)
    requires k in After(run)
    ensures k.digest in Minted(run)
  {
    hide Source, Move;
    var n := |run| - 1;
    var t, c := After(run[..n]), run[n];
    if !(c.op.Add? && k.digest == c.op.minted) {
      if c.op.Add? && c.op.previous.Some? {
        MoveIs(t, c.now, c.op.email, c.op.minted, c.op.previous.value, k);
        KeptByMove(t, c.now, c.op.email, c.op.minted, c.op.previous.value, k);
      }
      RowsAreMinted(run[..n], k);
    }
  }

  lemma KeptByMove(t: Table, now: int, email: string, minted: Digest, previous: Digest, k: DeviceKey)
    requires Source(t, now, email, minted, previous, k).Some? && k.digest != minted
    ensures k in t && Source(t, now, email, minted, previous, k) == Some(k)
  {
  }

  /** The row of a trust that is still carried. */
  lemma {:induction false} CarriedIsStored(run: seq<Call>, i: nat, d: Digest, email: string)
    requires NewIds(run) && Carries(run, i, d, email)
    ensures DeviceKey(d, email) in After(run) && After(run)[DeviceKey(d, email)].created == run[i].now
    decreases |run|
  {
    var n := |run| - 1;
    if i < n {
      var was, c := Carrier(run[..n], i).value, run[n];
      CarriedIsStored(run[..n], i, was, email);
      CarriersAreMinted(run[..n], i);
      hide Move;
      if c.op.Add? && c.op.previous.Some? {
        MoveIs(After(run[..n]), c.now, c.op.email, c.op.minted, c.op.previous.value, DeviceKey(d, email));
      }
    }
  }

  lemma {:induction false} StoredIsCarried(run: seq<Call>, k: DeviceKey) returns (i: nat)
    requires NewIds(run) && k in After(run)
    ensures Carries(run, i, k.digest, k.email)
  {
    var n := |run| - 1;
    var t, c := After(run[..n]), run[n];
    if c.op.Add? && k == DeviceKey(c.op.minted, c.op.email) {
      i := n;
    } else {
      var from := k;
      hide Move;
      if c.op.Add? && c.op.previous.Some? {
        MoveIs(t, c.now, c.op.email, c.op.minted, c.op.previous.value, k);
        from := MovedFrom(t, c.now, c.op.email, c.op.minted, c.op.previous.value, k);
      }
      i := StoredIsCarried(run[..n], from);
      CarriedIsStored(run[..n], i, from.digest, from.email);
      RowsAreMinted(run[..n], from);
    }
  }

  /** A browser is trusted for an email exactly when it carries the trust of a sign-in for that email
      within the year, and none does once the email's trust was deleted. */
  lemma TrustedExactlyWhen(run: seq<Call>, now: int, d: Digest, email: string)
    requires NewIds(run)
    ensures Apply(After(run), now, IsTrusted(d, email)).1
         == Decision(exists i: nat :: Carries(run, i, d, email) && run[i].now > now - 365 * 86400)
  {
    var k := DeviceKey(d, email);
    if k in After(run) {
      var i := StoredIsCarried(run, k);
      CarriedIsStored(run, i, d, email);
    }
    forall i: nat | Carries(run, i, d, email)
      ensures k in After(run) && After(run)[k].created == run[i].now
    {
      CarriedIsStored(run, i, d, email);
    }
  }
}
