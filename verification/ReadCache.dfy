/** `access_store.py`, `_cached` and `pinned_stamp`: reads answered from memory while the
    database's change counter stands still, over every interleaving of commits from any
    process, reads on any thread, cache clearing and expiry.

    A commit appends a version; the change counter is the version's index (no wrap-around). */
module ReadCache {
  import opened Text
  import opened AccessPolicy

  type Thread = nat

  datatype Key = UserKey(email: string) | GrantsKey(email: string)
  datatype Value = UserRow(user: Option<User>) | GrantRows(grants: seq<Grant>)

  /** The committed contents of the two cached tables. */
  datatype Tables = Tables(users: map<string, User>, grants: map<string, seq<Grant>>)

  function Query(t: Tables, k: Key): Value {
    match k
    case UserKey(e) => UserRow(if e in t.users then Some(t.users[e]) else None)
    case GrantsKey(e) => GrantRows(if e in t.grants then t.grants[e] else [])
  }

  const CACHE_MAX: nat := 4096
  const READ_CACHE_TTL_S: int := 5

  datatype Entry = Entry(stamp: nat, expires: int, value: Value)
  type Cache = map<Key, Entry>

  /** The hit test of `_cached`. */
  function Hit(cache: Cache, k: Key, stamp: Option<nat>, now: int): Option<Value> {
    if stamp.Some? && k in cache && cache[k].stamp == stamp.value && now < cache[k].expires
    then Some(cache[k].value) else None
  }

  /** The store after a load; nothing is cached without a stamp. */
  function Stored(cache: Cache, k: Key, stamp: Option<nat>, now: int, v: Value): Cache {
    if stamp == None then cache
    else (if |cache| > CACHE_MAX then map[] else cache)[k := Entry(stamp.value, now + READ_CACHE_TTL_S, v)]
  }

  /** What the cache remembers of a load: until 5 seconds later a lookup with the very stamp of the load
      finds its value, and no other lookup of that key finds anything. Nothing is remembered without a
      stamp, and other keys keep what they had unless the cache was over its size and is emptied. */
  lemma RememberedExactly(cache: Cache, k: Key, stamp: Option<nat>, at: int, v: Value, k': Key, asked: nat, now: int)
    ensures stamp == None ==> Stored(cache, k, stamp, at, v) == cache
    ensures stamp.Some? ==>
              Hit(Stored(cache, k, stamp, at, v), k, Some(asked), now)
              == if asked == stamp.value && now < at + 5 then Some(v) else None
    ensures stamp.Some? && k' != k ==>
              Hit(Stored(cache, k, stamp, at, v), k', Some(asked), now)
              == if |cache| > 4096 then None else Hit(cache, k', Some(asked), now)
    ensures Hit(cache, k, None, now) == None
  {
  }

  class AccessReadCache {
    var readCache: Cache

    constructor ()
      ensures readCache == map[]
    {
      readCache := map[];
    }

    method LookUp(k: Key, stamp: Option<nat>, now: int) returns (hit: Option<Value>)
      ensures hit == Hit(readCache, k, stamp, now)
    {
      hit := None;
      if stamp.Some? && k in readCache {
        var e := readCache[k];
        if e.stamp == stamp.value && now < e.expires {
          hit := Some(e.value);
        }
      }
    }

    method Remember(k: Key, stamp: Option<nat>, now: int, v: Value)
      modifies this
      ensures readCache == Stored(old(readCache), k, stamp, now, v)
    {
      if stamp.Some? {
        if |readCache| > CACHE_MAX {
          readCache := map[];
        }
        readCache := readCache[k := Entry(stamp.value, now + READ_CACHE_TTL_S, v)];
      }
    }

    /** `_cached` with nothing interleaved: `loaded` is what the query would return now. */
    method Cached(k: Key, stamp: Option<nat>, now: int, loaded: Value) returns (v: Value)
      modifies this
      ensures var hit := Hit(old(readCache), k, stamp, now);
              && v == (if hit.Some? then hit.value else loaded)
              && readCache == if hit.Some? then old(readCache) else Stored(old(readCache), k, stamp, now, loaded)
    {
      var hit := LookUp(k, stamp, now);
      if hit.Some? {
        return hit.value;
      }
      Remember(k, stamp, now, loaded);
      v := loaded;
    }
  }

  // ---- All threads and processes ---------------------------------------------------------------

  /** `began` is the version when the read began; `since` the one when its stamp was read,
      earlier for a pinned stamp. */
  datatype Phase = Started | Missed(now: int) | Loaded(now: int, value: Value)
  datatype OngoingRead = OngoingRead(key: Key, stamp: Option<nat>, began: nat, since: nat, phase: Phase)

  /** A finished read and the version when it returned. */
  datatype Done = Done(thread: Thread, key: Key, began: nat, since: nat, end: nat, value: Value)

  datatype World = World(
    history: seq<Tables>,
    cache: Cache,
    pins: map<Thread, nat>,
    active: map<Thread, OngoingRead>,
    done: seq<Done>)

  datatype Step =
    | Commit(t: Tables)
    | Clear
    | Pin(th: Thread)
    | Unpin(th: Thread)
    | Begin(th: Thread, k: Key, readable: bool)
    | LookUpStep(th: Thread, now: int)
    | Load(th: Thread)
    | Fail(th: Thread)
    | Finish(th: Thread)

  function Init(t: Tables): World { World([t], map[], map[], map[], []) }

  function Now(w: World): nat
    requires w.history != []
  {
    |w.history| - 1
  }

  predicate Enabled(w: World, step: Step) {
    match step
    case Commit(_) => true
    case Clear => true
    case Pin(th) => th !in w.pins && th !in w.active
    case Unpin(th) => th in w.pins && th !in w.active
    case Begin(th, _, _) => th !in w.active
    case LookUpStep(th, _) => th in w.active && w.active[th].phase.Started?
    case Load(th) => th in w.active && w.active[th].phase.Missed?
    case Fail(th) => th in w.active && w.active[th].phase.Missed?
    case Finish(th) => th in w.active && w.active[th].phase.Loaded?
  }

  function Drop(active: map<Thread, OngoingRead>, th: Thread): map<Thread, OngoingRead> {
    map t | t in active && t != th :: active[t]
  }

  function Next(w: World, step: Step): World
    requires w.history != [] && Enabled(w, step)
  {
    match step
    case Commit(t) => w.(history := w.history + [t])
    case Clear => w.(cache := map[])
    case Pin(th) => w.(pins := w.pins[th := Now(w)])
    case Unpin(th) => w.(pins := map t | t in w.pins && t != th :: w.pins[t])
    case Begin(th, k, readable) =>
      var read :=
        if th in w.pins then OngoingRead(k, Some(w.pins[th]), Now(w), w.pins[th], Started)
        else OngoingRead(k, if readable then Some(Now(w)) else None, Now(w), Now(w), Started);
      w.(active := w.active[th := read])
    case LookUpStep(th, now) =>
      var r := w.active[th];
      var hit := Hit(w.cache, r.key, r.stamp, now);
      if hit.Some? then
        w.(active := Drop(w.active, th), done := w.done + [Done(th, r.key, r.began, r.since, Now(w), hit.value)])
      else w.(active := w.active[th := r.(phase := Missed(now))])
    case Load(th) =>
      var r := w.active[th];
      w.(active := w.active[th := r.(phase := Loaded(r.phase.now, Query(w.history[Now(w)], r.key)))])
    case Fail(th) => w.(active := Drop(w.active, th))
    case Finish(th) =>
      var r := w.active[th];
      w.(cache := Stored(w.cache, r.key, r.stamp, r.phase.now, r.phase.value), active := Drop(w.active, th),
         done := w.done + [Done(th, r.key, r.began, r.since, Now(w), r.phase.value)])
  }

  /** How a read goes: it looks up, then loads unless that was a hit, then fails, leaving the cache and
      the results as they are, or finishes. */
  lemma ReadsGoOn(w: World, th: Thread, now: int)
    requires w.history != [] && th in w.active
    ensures Enabled(w, LookUpStep(th, now)) <==> w.active[th].phase.Started?
    ensures Enabled(w, Load(th)) <==> w.active[th].phase.Missed?
    ensures Enabled(w, Finish(th)) <==> w.active[th].phase.Loaded?
    ensures Enabled(w, Fail(th)) ==>
              var w' := Next(w, Fail(th));
              th !in w'.active && w'.cache == w.cache && w'.done == w.done && Enabled(w', Begin(th, w.active[th].key, true))
    ensures w.active[th].phase.Missed? ==> Enabled(w, Fail(th))
    ensures !Enabled(w, Pin(th)) && !Enabled(w, Unpin(th))
  {
  }

  /** A pin holds for the reads of its thread that begin before it is lifted, and for no others. */
  lemma PinsExactly(w: World, th: Thread, other: Thread, k: Key, readable: bool)
    requires w.history != [] && th !in w.active && other !in w.active && other != th
    ensures Enabled(w, Pin(th)) <==> th !in w.pins
    ensures Enabled(w, Unpin(th)) <==> th in w.pins
    ensures th !in w.pins ==>
              Next(Next(w, Pin(th)), Begin(th, k, readable)).active[th].stamp == Some(|w.history| - 1)
    ensures th in w.pins ==>
              var lifted := Next(w, Unpin(th));
              && Next(w, Begin(th, k, readable)).active[th].stamp == Some(w.pins[th])
              && Next(lifted, Begin(th, k, readable)).active[th].stamp == (if readable then Some(|w.history| - 1) else None)
              && (other in lifted.pins <==> other in w.pins)
  {
  }

  // ---- Freshness ---------------------------------------------------------------------------------

  /** Some version from `lo` to `hi` answers `k` with `v`. */
  ghost predicate Served(history: seq<Tables>, k: Key, v: Value, lo: nat, hi: int) {
    exists i :: lo <= i <= hi && i < |history| && Query(history[i], k) == v
  }

  ghost predicate EntryOk(history: seq<Tables>, k: Key, e: Entry) {
    Served(history, k, e.value, e.stamp, |history| - 1)
  }

  ghost predicate ReadOk(history: seq<Tables>, r: OngoingRead) {
    && r.since <= r.began < |history|
    && (r.stamp.Some? ==> r.stamp.value == r.since)
    && (r.phase.Loaded? ==> Served(history, r.key, r.phase.value, r.began, |history| - 1))
  }

  ghost predicate DoneOk(history: seq<Tables>, d: Done) {
    d.since <= d.began <= d.end < |history| && Served(history, d.key, d.value, d.since, d.end)
  }

  ghost predicate Inv(w: World) {
    && w.history != []
    && (forall k | k in w.cache :: EntryOk(w.history, k, w.cache[k]))
    && (forall th | th in w.pins :: w.pins[th] < |w.history|)
    && (forall th | th in w.active :: ReadOk(w.history, w.active[th]))
    && (forall i | 0 <= i < |w.done| :: DoneOk(w.history, w.done[i]))
  }

  lemma ServedLater(history: seq<Tables>, t: Tables, k: Key, v: Value, lo: nat, hi: int, hi': int)
    requires Served(history, k, v, lo, hi) && hi <= hi'
    ensures Served(history + [t], k, v, lo, hi')
  {
    var i :| lo <= i <= hi && i < |history| && Query(history[i], k) == v;
    assert (history + [t])[i] == history[i];
  }

  lemma ServedWider(history: seq<Tables>, k: Key, v: Value, lo: nat, lo': nat, hi: int)
    requires Served(history, k, v, lo, hi) && lo' <= lo
    ensures Served(history, k, v, lo', hi)
  {
  }

  lemma CommitKeepsInv(w: World, t: Tables)
    requires Inv(w)
    ensures Inv(Next(w, Commit(t)))
  {
    var h, h' := w.history, w.history + [t];
    forall k | k in w.cache
      ensures EntryOk(h', k, w.cache[k])
    {
      ServedLater(h, t, k, w.cache[k].value, w.cache[k].stamp, |h| - 1, |h'| - 1);
    }
    forall th | th in w.active
      ensures ReadOk(h', w.active[th])
    {
      var r := w.active[th];
      if r.phase.Loaded? {
        ServedLater(h, t, r.key, r.phase.value, r.began, |h| - 1, |h'| - 1);
      }
    }
    forall i | 0 <= i < |w.done|
      ensures DoneOk(h', w.done[i])
    {
      var d := w.done[i];
      ServedLater(h, t, d.key, d.value, d.since, d.end, d.end);
    }
  }

  lemma NextKeepsInv(w: World, step: Step)
    requires Inv(w) && Enabled(w, step)
    ensures Inv(Next(w, step))
  {
    match step {
      case Commit(t) => CommitKeepsInv(w, t);
      case LookUpStep(th, now) =>
        var r := w.active[th];
        if Hit(w.cache, r.key, r.stamp, now).Some? {
          assert EntryOk(w.history, r.key, w.cache[r.key]);
        }
      case Load(th) =>
        var r := w.active[th];
        assert Query(w.history[Now(w)], r.key) == Query(w.history[|w.history| - 1], r.key);
        assert Served(w.history, r.key, Query(w.history[Now(w)], r.key), r.began, Now(w));
      case Finish(th) =>
        var r := w.active[th];
        assert ReadOk(w.history, r);
        ServedWider(w.history, r.key, r.phase.value, r.began, r.since, Now(w));
      case _ =>
    }
  }

  /** The world after a run; a step that is not enabled does not happen. */
  function After(start: Tables, steps: seq<Step>): (w: World)
    ensures w.history != []
  {
    if steps == [] then Init(start)
    else
      var before, step := After(start, steps[..|steps| - 1]), steps[|steps| - 1];
      if Enabled(before, step) then Next(before, step) else before
  }

  lemma {:induction false} AfterInv(start: Tables, steps: seq<Step>)
    ensures Inv(After(start, steps))
  {
    if steps != [] {
      var before, step := After(start, steps[..|steps| - 1]), steps[|steps| - 1];
      AfterInv(start, steps[..|steps| - 1]);
      if Enabled(before, step) {
        NextKeepsInv(before, step);
      }
    }
  }

  /** `w` is reached from a store holding `start` by some interleaving. */
  ghost predicate Reachable(start: Tables, w: World) {
    exists steps :: After(start, steps) == w
  }

  lemma ReachableInv(start: Tables, w: World)
    requires Reachable(start, w)
    ensures Inv(w)
  {
    var steps :| After(start, steps) == w;
    AfterInv(start, steps);
  }

  lemma ReachableNext(start: Tables, w: World, step: Step) returns (w': World)
    requires Reachable(start, w) && w.history != [] && Enabled(w, step)
    ensures Reachable(start, w') && w' == Next(w, step)
  {
    hide Next, Enabled;
    var steps :| After(start, steps) == w;
    assert (steps + [step])[..|steps|] == steps;
    w' := Next(w, step);
    assert After(start, steps + [step]) == w';
  }

  /** Every finished read returned the table contents of some instant between reading the
      stamp it used and returning. */
  lemma CachedReadsAreFresh(start: Tables, w: World, i: nat)
    requires Reachable(start, w) && i < |w.done|
    ensures var d := w.done[i];
            d.since <= d.end < |w.history| && Served(w.history, d.key, d.value, d.since, d.end)
  {
    ReachableInv(start, w);
    assert DoneOk(w.history, w.done[i]);
  }

  // ---- The policy over cached reads ----------------------------------------------------------------

  function GrantsIn(t: Tables, email: string): seq<Grant> {
    if email in t.grants then t.grants[email] else []
  }

  function UserIn(t: Tables, email: string): Option<User> {
    if email in t.users then Some(t.users[email]) else None
  }

  predicate Approved(t: Tables, email: string) { email in t.users && t.users[email].approved }

  predicate IsAdmin(t: Tables, email: string) { Approved(t, email) && t.users[email].admin }

  /** The uncached check: the user row of one instant, the grants of the same or a later one. */
  predicate UncachedCheck(history: seq<Tables>, i: nat, j: nat, email: string, channel: string, op: Op)
    requires i < |history| && j < |history|
  {
    email != "" && Allowed(UserIn(history[i], email), GrantsIn(history[j], email), channel, op)
  }

  /** The finished reads a check made: none (at version `at`), the user row, or that and the grants. */
  datatype Check = Unasked(at: nat) | UserOnly(a: nat) | Both(a: nat, b: nat)

  function UserOf(v: Value): Option<User> { if v.UserRow? then v.user else None }

  function GrantsOf(v: Value): seq<Grant> { if v.GrantRows? then v.grants else [] }

  /** Whether the user row settles the check, so that `_allowed` never reads the grants. */
  predicate RowDecides(user: Option<User>) { user == None || !user.value.approved || user.value.admin }

  /** `c` is a check by `_allowed`: which reads there are depends on what the first one gave. */
  predicate IsCheck(w: World, c: Check, email: string, channel: string) {
    match c
    case Unasked(at) => at < |w.history| && (email == "" || channel == "")
    case UserOnly(a) =>
      && email != "" && channel != "" && a < |w.done|
      && w.done[a].key == UserKey(email) && RowDecides(UserOf(w.done[a].value))
    case Both(a, b) =>
      && email != "" && channel != "" && a < |w.done| && b < |w.done|
      && w.done[a].key == UserKey(email) && !RowDecides(UserOf(w.done[a].value))
      && w.done[b].key == GrantsKey(email) && w.done[b].thread == w.done[a].thread
      && w.done[a].end <= w.done[b].began
  }

  /** What the check answers. */
  predicate Answer(w: World, c: Check, email: string, channel: string, op: Op)
    requires IsCheck(w, c, email, channel)
  {
    match c
    case Unasked(_) => false
    case UserOnly(a) => var user := UserOf(w.done[a].value); user.Some? && user.value.approved
    case Both(_, b) => Grants(LevelOn(GrantsOf(w.done[b].value), channel), op)
  }

  /** The version when the check began and the one when it ended. */
  function Span(w: World, c: Check, email: string, channel: string): (nat, nat)
    requires IsCheck(w, c, email, channel)
  {
    match c
    case Unasked(at) => (at, at)
    case UserOnly(a) => (w.done[a].began, w.done[a].end)
    case Both(a, b) => (w.done[a].began, w.done[b].end)
  }

  /** No read of the check was pinned. */
  predicate Unpinned(w: World, c: Check, email: string, channel: string)
    requires IsCheck(w, c, email, channel)
  {
    && (!c.Unasked? ==> w.done[c.a].since == w.done[c.a].began)
    && (c.Both? ==> w.done[c.b].since == w.done[c.b].began)
  }

  /** A finished read of the user row, or of the grants, gave those of some version of its span. */
  lemma ReadVersion(w: World, a: nat, email: string) returns (i: nat)
    requires Inv(w) && a < |w.done| && w.done[a].key in {UserKey(email), GrantsKey(email)}
    ensures var d := w.done[a];
            && d.since <= i <= d.end < |w.history| && d.since <= d.began <= d.end
            && (d.key.UserKey? ==> UserOf(d.value) == UserIn(w.history[i], email))
            && (d.key.GrantsKey? ==> GrantsOf(d.value) == GrantsIn(w.history[i], email))
  {
    var d := w.done[a];
    assert DoneOk(w.history, d);
    i :| d.since <= i <= d.end && i < |w.history| && Query(w.history[i], d.key) == d.value;
  }

  /** The versions a check saw. The first is that of the user row. */
  lemma CheckVersions(w: World, c: Check, email: string, channel: string, op: Op) returns (i: nat, j: nat)
    requires Inv(w) && IsCheck(w, c, email, channel)
    ensures i < |w.history| && j < |w.history|
    ensures Answer(w, c, email, channel, op) == UncachedCheck(w.history, i, j, email, channel, op)
    ensures match c
            case Unasked(at) => i == j == at
            case UserOnly(a) => w.done[a].since <= i == j <= w.done[a].end
            case Both(a, b) => w.done[a].since <= i <= w.done[a].end && w.done[b].since <= j <= w.done[b].end
    ensures !c.Unasked? ==> UserIn(w.history[i], email) == UserOf(w.done[c.a].value)
  {
    hide Inv;
    match c {
      case Unasked(at) => i, j := at, at;
      case UserOnly(a) =>
        i := ReadVersion(w, a, email);
        j := i;
      case Both(a, b) =>
        i := ReadVersion(w, a, email);
        j := ReadVersion(w, b, email);
    }
  }

  /** An unpinned check, which reads the grants only if the user row does not decide, answers as an
      uncached check does between its begin and its end: the user row of some instant, the grants of
      that or a later one. */
  lemma UnpinnedCheckIsUncached(start: Tables, w: World, c: Check, email: string, channel: string, op: Op)
    returns (i: nat, j: nat)
    requires Reachable(start, w) && IsCheck(w, c, email, channel) && Unpinned(w, c, email, channel)
    ensures var (began, end) := Span(w, c, email, channel);
            && began <= i <= j <= end < |w.history|
            && Answer(w, c, email, channel, op) == UncachedCheck(w.history, i, j, email, channel, op)
  {
    ReachableInv(start, w);
    hide Reachable, UncachedCheck;
    i, j := CheckVersions(w, c, email, channel, op);
    if c.Both? {
      var _ := ReadVersion(w, c.b, email);
    } else if c.UserOnly? {
      var _ := ReadVersion(w, c.a, email);
    }
  }

  /** Revocation, for one read: an unpinned read of the user row during which no version had the user
      approved returns a row that denies every operation, whatever the cache held. */
  lemma RevokedRowDenies(start: Tables, w: World, a: nat, email: string)
    requires Reachable(start, w) && a < |w.done| && w.done[a].key == UserKey(email)
    requires w.done[a].since == w.done[a].began
    requires forall v | w.done[a].began <= v <= w.done[a].end && v < |w.history| :: !Approved(w.history[v], email)
    ensures forall grants, channel, op :: !Allowed(UserOf(w.done[a].value), grants, channel, op)
    ensures UserOf(w.done[a].value) == None || !UserOf(w.done[a].value).value.approved
  {
    ReachableInv(start, w);
    var i := ReadVersion(w, a, email);
    assert !Approved(w.history[i], email);
  }

  /** Revocation: if the user is approved in no version from the begin of an unpinned check to its
      end, the check denies, whatever the cache holds, and reads no grants. */
  lemma RevokedUserIsDenied(start: Tables, w: World, c: Check, email: string, channel: string, op: Op)
    requires Reachable(start, w) && IsCheck(w, c, email, channel) && Unpinned(w, c, email, channel)
    requires var (began, end) := Span(w, c, email, channel);
             forall v | began <= v <= end && v < |w.history| :: !Approved(w.history[v], email)
    ensures !Answer(w, c, email, channel, op) && !c.Both?
  {
    if !c.Unasked? {
      if c.Both? {
        ReachableInv(start, w);
        var _ := ReadVersion(w, c.b, email);
      }
      RevokedRowDenies(start, w, c.a, email);
    }
  }

  /** Removing the grant denies too: if the user is an admin in no version from the begin of an
      unpinned check to its end, and no version since holds a grant that covers the operation,
      the check denies. */
  lemma RemovedGrantIsDenied(start: Tables, w: World, c: Check, email: string, channel: string, op: Op)
    requires Reachable(start, w) && IsCheck(w, c, email, channel) && Unpinned(w, c, email, channel)
    requires var (began, end) := Span(w, c, email, channel);
             forall v | began <= v <= end && v < |w.history| ::
               !IsAdmin(w.history[v], email) && !Covers(GrantsIn(w.history[v], email), channel, op)
    ensures !Answer(w, c, email, channel, op)
  {
    var i, j := UnpinnedCheckIsUncached(start, w, c, email, channel, op);
    assert !IsAdmin(w.history[i], email);
    GrantsCover(GrantsIn(w.history[j], email), channel, op);
  }
}
