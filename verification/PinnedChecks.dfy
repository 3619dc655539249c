/** `access_store.py`, `pinned_stamp`: when a policy check inside a pinned block answers as an
    uncached one would, and when it cannot be relied on to. */
module PinnedChecks {
  import opened Text
  import opened AccessPolicy
  import opened ReadCache

  /** All reads of the check were made with the stamp pinned at version `pin`. */
  predicate PinnedAt(w: World, c: Check, email: string, channel: string, pin: nat)
    requires IsCheck(w, c, email, channel)
  {
    match c
    case Unasked(at) => pin <= at
    case UserOnly(a) => w.done[a].since == pin
    case Both(a, b) => w.done[a].since == pin && w.done[b].since == pin
  }

  /** A check inside one pinned block answers as an uncached one does from the pin on, if no
      commit falls between the pin and the return of the user read. Commits after that, before or
      during the grants read, do no harm. */
  lemma PinnedCheckIsUncached(start: Tables, w: World, c: Check, email: string, channel: string, op: Op, pin: nat)
    returns (i: nat, j: nat)
    requires Reachable(start, w) && IsCheck(w, c, email, channel) && PinnedAt(w, c, email, channel, pin)
    requires !c.Unasked? ==> w.done[c.a].end == pin
    ensures pin <= i <= j <= Span(w, c, email, channel).1 < |w.history| && (!c.Unasked? ==> i == pin)
    ensures Answer(w, c, email, channel, op) == UncachedCheck(w.history, i, j, email, channel, op)
  {
    ReachableInv(start, w);
    i, j := CheckVersions(w, c, email, channel, op);
    if c.Both? {
      var _ := ReadVersion(w, c.b, email);
    } else if c.UserOnly? {
      var _ := ReadVersion(w, c.a, email);
    }
  }

  /** Whom later commits cannot touch: for a user who was approved and no admin at the pin, a pinned
      check answers as some uncached one does from the pin on, whatever was committed. */
  lemma PinOfMemberIsUncached(start: Tables, w: World, c: Check, email: string, channel: string, op: Op, pin: nat)
    returns (i: nat, j: nat)
    requires Reachable(start, w) && IsCheck(w, c, email, channel) && PinnedAt(w, c, email, channel, pin)
    requires pin < |w.history| && Approved(w.history[pin], email) && !IsAdmin(w.history[pin], email)
    ensures pin <= i <= j <= Span(w, c, email, channel).1 < |w.history|
    ensures Answer(w, c, email, channel, op) == UncachedCheck(w.history, i, j, email, channel, op)
  {
    ReachableInv(start, w);
    hide Reachable;
    i, j := CheckVersions(w, c, email, channel, op);
    if c.Both? {
      var _ := ReadVersion(w, c.b, email);
      if j < i {
        assert !RowDecides(UserIn(w.history[i], email)) && !RowDecides(UserIn(w.history[pin], email));
        i := pin;
      }
    } else if c.UserOnly? {
      var _ := ReadVersion(w, c.a, email);
    }
  }

  // ---- Runs in which a pinned check mixes versions ---------------------------------------------------

  /** One read of a pinned thread that misses, loads and returns. */
  lemma ReadThrough(start: Tables, w: World, th: Thread, k: Key, now: int) returns (w': World)
    requires Reachable(start, w) && w.history != [] && th !in w.active && th in w.pins
    requires k !in w.cache && |w.cache| <= CACHE_MAX
    ensures Reachable(start, w')
    ensures var v := Query(w.history[Now(w)], k);
            && w'.history == w.history && w'.pins == w.pins && th !in w'.active
            && w'.cache == w.cache[k := Entry(w.pins[th], now + READ_CACHE_TTL_S, v)]
            && w'.done == w.done + [Done(th, k, Now(w), w.pins[th], Now(w), v)]
  {
    hide Reachable, After, Query;
    var n, v := Now(w), Query(w.history[Now(w)], k);
    var r := OngoingRead(k, Some(w.pins[th]), n, w.pins[th], Started);
    var w1 := ReachableNext(start, w, Begin(th, k, true));
    assert w1 == w.(active := w.active[th := r]);
    var w2 := ReachableNext(start, w1, LookUpStep(th, now));
    assert w2 == w1.(active := w1.active[th := r.(phase := Missed(now))]);
    var w3 := ReachableNext(start, w2, Load(th));
    assert w3 == w2.(active := w2.active[th := r.(phase := Loaded(now, v))]);
    w' := ReachableNext(start, w3, Finish(th));
  }

  /** One read of a pinned thread answered from the cache. */
  lemma ReadFromCache(start: Tables, w: World, th: Thread, k: Key, now: int) returns (w': World)
    requires Reachable(start, w) && w.history != [] && th !in w.active && th in w.pins
    requires k in w.cache && w.cache[k].stamp == w.pins[th] && now < w.cache[k].expires
    ensures Reachable(start, w') && w'.history == w.history
    ensures w'.done == w.done + [Done(th, k, Now(w), w.pins[th], Now(w), w.cache[k].value)]
  {
    hide Reachable, After, Query;
    var w1 := ReachableNext(start, w, Begin(th, k, true));
    w' := ReachableNext(start, w1, LookUpStep(th, now));
  }

  /** Another thread's read of the grants is under way: it read the stamp at version `stamp` and found
      nothing cached, and it has not loaded yet. */
  predicate SlowReader(w: World, other: Thread, email: string, stamp: nat) {
    && other in w.active && w.active[other].key == GrantsKey(email)
    && w.active[other].stamp == Some(stamp) && w.active[other].phase.Missed?
  }

  /** The slow reader loads and stores under its old stamp. */
  lemma SlowReaderStores(start: Tables, w: World, other: Thread, email: string, stamp: nat) returns (w': World)
    requires Reachable(start, w) && w.history != [] && SlowReader(w, other, email, stamp)
    ensures Reachable(start, w') && w'.history == w.history && w'.pins == w.pins && |w'.done| == |w.done| + 1
    ensures other !in w'.active && forall th | th !in w.active :: th !in w'.active
    ensures w'.cache == map[GrantsKey(email) :=
              Entry(stamp, w.active[other].phase.now + READ_CACHE_TTL_S, GrantRows(GrantsIn(w.history[Now(w)], email)))]
  {
    hide Reachable, After;
    var r := w.active[other];
    var v := GrantRows(GrantsIn(w.history[Now(w)], email));
    var w1 := ReachableNext(start, w, Clear);
    var w2 := ReachableNext(start, w1, Load(other));
    assert w2 == w1.(active := w1.active[other := r.(phase := Loaded(r.phase.now, v))]);
    w' := ReachableNext(start, w2, Finish(other));
  }

  /** The slow reader stores, one commit, then a pinned check of somebody approved by it: the user
      read goes to the database and the grants read to the cache. */
  lemma MixingRun(start: Tables, w: World, th: Thread, other: Thread, email: string, channel: string, t': Tables)
    returns (w': World, c: Check)
    requires Reachable(start, w) && w.history != [] && th in w.pins && th !in w.active
    requires SlowReader(w, other, email, w.pins[th]) && email != "" && channel != ""
    requires Approved(t', email) && !IsAdmin(t', email)
    ensures Reachable(start, w') && w'.history == w.history + [t']
    ensures IsCheck(w', c, email, channel) && PinnedAt(w', c, email, channel, w.pins[th])
    ensures c.Both? && w'.done[c.a].thread == th
    ensures forall op :: Answer(w', c, email, channel, op)
              == Grants(LevelOn(GrantsIn(w.history[Now(w)], email), channel), op)
  {
    hide Reachable, After, LevelOn;
    var w1 := SlowReaderStores(start, w, other, email, w.pins[th]);
    var now := w.active[other].phase.now;
    var w2 := ReachableNext(start, w1, Commit(t'));
    var w3 := ReadThrough(start, w2, th, UserKey(email), now);
    w' := ReadFromCache(start, w3, th, GrantsKey(email), now);
    c := Both(|w.done| + 1, |w.done| + 2);
  }

  /** Approve the user, no admin, and remove every grant, in one commit. */
  function Swapped(t: Tables, email: string): Tables {
    Tables(t.users[email := User(true, false)], t.grants[email := []])
  }

  lemma NoVersionAllows(h: seq<Tables>, t: Tables, pin: nat, email: string, channel: string, op: Op, i: nat, j: nat)
    requires pin <= i <= j <= |h|
    requires forall v | pin <= v < |h| :: !Approved(h[v], email)
    ensures !UncachedCheck(h + [Swapped(t, email)], i, j, email, channel, op)
  {
    assert LevelOn([], channel) == UnknownLevel;
    var h' := h + [Swapped(t, email)];
    if i < |h| {
      assert h'[i] == h[i] && !Approved(h[i], email);
    }
  }

  /** The condition is needed: if the user was never approved since the pin and has a grant now, and
      another thread has been reading the grants since the pin, one commit before the user read makes
      the check allow, though no uncached check from the pin on would. */
  lemma CommitBeforeUserReadMixes(start: Tables, w: World, th: Thread, other: Thread, email: string, channel: string,
                                  op: Op)
    returns (w': World, c: Check)
    requires Reachable(start, w) && w.history != [] && th in w.pins && th !in w.active
    requires SlowReader(w, other, email, w.pins[th]) && email != "" && channel != ""
    requires forall v | w.pins[th] <= v < |w.history| :: !Approved(w.history[v], email)
    requires Grants(LevelOn(GrantsIn(w.history[Now(w)], email), channel), op)
    ensures Reachable(start, w') && |w'.history| == |w.history| + 1
    ensures IsCheck(w', c, email, channel) && PinnedAt(w', c, email, channel, w.pins[th])
    ensures Answer(w', c, email, channel, op)
    ensures forall i, j | w.pins[th] <= i <= j < |w'.history| :: !UncachedCheck(w'.history, i, j, email, channel, op)
  {
    var t := w.history[Now(w)];
    w', c := MixingRun(start, w, th, other, email, channel, Swapped(t, email));
    hide Reachable, Swapped, IsCheck;
    forall i, j | w.pins[th] <= i <= j < |w'.history|
      ensures !UncachedCheck(w'.history, i, j, email, channel, op)
    {
      NoVersionAllows(w.history, t, w.pins[th], email, channel, op, i, j);
    }
  }

  predicate FreshlyPinned(w: World, th: Thread) {
    w.history != [] && th in w.pins && th !in w.active && w.pins[th] == Now(w)
  }

  lemma {:induction false} Above(s: set<nat>) returns (n: nat)
    ensures forall x | x in s :: x < n
  {
    if s == {} {
      return 0;
    }
    var x :| x in s;
    var m := Above(s - {x});
    n := if x < m then m else x + 1;
    forall y | y in s ensures y < n {
      assert y == x || y in s - {x};
    }
  }

  /** After a fresh pin a thread without one, the admin page say, begins to read the grants. */
  lemma SlowReaderStarts(start: Tables, w: World, th: Thread, email: string) returns (w': World, other: Thread)
    requires Reachable(start, w) && FreshlyPinned(w, th)
    ensures Reachable(start, w') && w'.history == w.history && w'.pins == w.pins
    ensures th !in w'.active && SlowReader(w', other, email, w.pins[th])
  {
    hide Reachable, After;
    other := Above(w.pins.Keys + w.active.Keys);
    assert other !in w.pins.Keys + w.active.Keys;
    var w1 := ReachableNext(start, w, Clear);
    var w2 := ReachableNext(start, w1, Begin(other, GrantsKey(email), true));
    w' := ReachableNext(start, w2, LookUpStep(other, 0));
  }

  /** From every fresh pin such a run follows, for any user not approved then: a commit can grant
      while the other thread is about to load. */
  lemma PinOfOutsiderCanMix(start: Tables, w: World, th: Thread, email: string, channel: string, op: Op)
    returns (w': World, c: Check)
    requires Reachable(start, w) && FreshlyPinned(w, th) && !Approved(w.history[Now(w)], email)
    requires email != "" && channel != ""
    ensures Reachable(start, w')
    ensures IsCheck(w', c, email, channel) && PinnedAt(w', c, email, channel, w.pins[th])
    ensures Answer(w', c, email, channel, op)
    ensures forall i, j | w.pins[th] <= i <= j < |w'.history| :: !UncachedCheck(w'.history, i, j, email, channel, op)
  {
    var t := w.history[Now(w)];
    var granted := t.(grants := t.grants[email := [Grant(channel, Write)]]);
    var w1, other := SlowReaderStarts(start, w, th, email);
    var w2 := ReachableNext(start, w1, Commit(granted));
    hide Reachable;
    assert !Approved(granted, email);
    assert LevelOn([Grant(channel, Write)], channel) == Write;
    w', c := CommitBeforeUserReadMixes(start, w2, th, other, email, channel, op);
  }

  /** No admin any more, but with a grant. */
  function Demoted(t: Tables, email: string, channel: string): Tables {
    Tables(t.users[email := User(true, false)], t.grants[email := [Grant(channel, Write)]])
  }

  lemma EveryVersionAllows(h: seq<Tables>, t: Tables, pin: nat, email: string, channel: string, op: Op, i: nat, j: nat)
    requires pin <= i <= j <= |h| && email != "" && channel != ""
    requires forall v | pin <= v < |h| :: IsAdmin(h[v], email)
    ensures UncachedCheck(h + [Demoted(t, email, channel)], i, j, email, channel, op)
  {
    var h' := h + [Demoted(t, email, channel)];
    assert LevelOn([Grant(channel, Write)], channel) == Write;
    if i < |h| {
      assert h'[i] == h[i] && IsAdmin(h[i], email);
    }
  }

  /** For an admin the mixture goes the other way: from every fresh pin a run follows in which the
      check denies, though every uncached check from the pin on would allow. */
  lemma PinOfAdminCanMix(start: Tables, w: World, th: Thread, email: string, channel: string, op: Op)
    returns (w': World, c: Check)
    requires Reachable(start, w) && FreshlyPinned(w, th) && IsAdmin(w.history[Now(w)], email)
    requires email != "" && channel != ""
    ensures Reachable(start, w')
    ensures IsCheck(w', c, email, channel) && PinnedAt(w', c, email, channel, w.pins[th])
    ensures !Answer(w', c, email, channel, op)
    ensures forall i, j | w.pins[th] <= i <= j < |w'.history| :: UncachedCheck(w'.history, i, j, email, channel, op)
  {
    var t := w.history[Now(w)];
    var ungranted := t.(grants := t.grants[email := []]);
    var w1, other := SlowReaderStarts(start, w, th, email);
    var w2 := ReachableNext(start, w1, Commit(ungranted));
    hide Reachable;
    assert IsAdmin(ungranted, email) && GrantsIn(ungranted, email) == [];
    assert LevelOn([], channel) == UnknownLevel;
    w', c := MixingRun(start, w2, th, other, email, channel, Demoted(ungranted, email, channel));
    hide Demoted, FreshlyPinned, IsCheck;
    forall i, j | w.pins[th] <= i <= j < |w'.history|
      ensures UncachedCheck(w'.history, i, j, email, channel, op)
    {
      EveryVersionAllows(w2.history, ungranted, w.pins[th], email, channel, op, i, j);
    }
  }

  /** The smallest case: a pending user with a grant, a pin, a slow reader, and one commit. */
  lemma PinnedCheckMayMixVersions(email: string, channel: string) returns (start: Tables, w: World, c: Check)
    requires email != "" && channel != ""
    ensures Reachable(start, w) && |w.history| == 2
    ensures IsCheck(w, c, email, channel) && PinnedAt(w, c, email, channel, 0)
    ensures Answer(w, c, email, channel, ReadOp)
    ensures forall i, j | 0 <= i <= j < |w.history| :: !UncachedCheck(w.history, i, j, email, channel, ReadOp)
  {
    start := Tables(map[email := User(false, false)], map[email := [Grant(channel, Read)]]);
    assert After(start, []) == Init(start);
    var pinned := ReachableNext(start, Init(start), Pin(0));
    var w1, other := SlowReaderStarts(start, pinned, 0, email);
    hide Reachable;
    assert LevelOn([Grant(channel, Read)], channel) == Read;
    w, c := CommitBeforeUserReadMixes(start, w1, 0, other, email, channel, ReadOp);
  }
}
