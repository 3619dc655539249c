/** `web/message_check.py`, `_take_call`: a daily cap over all guests and one for each guest. */
module ValidatorCaps {
  import opened Text
  import opened SlidingWindow

  const DAY_S: nat := 86400

  type Guest = string

  datatype Caps = Caps(daily: nat, guest: nat)

  /** The deques; a guest without one counts as having an empty one. */
  datatype Deques = Deques(all: seq<int>, mine: map<Guest, seq<int>>)

  /** The accepted calls of the whole run. */
  datatype Log = Log(all: seq<int>, mine: map<Guest, seq<int>>)

  function Of(m: map<Guest, seq<int>>, g: Guest): seq<int> { if g in m then m[g] else [] }

  /** The accepted calls of one guest. */
  function Mine(l: Log, g: Guest): seq<int> { if g in l.mine then l.mine[g] else [] }

  predicate Accepts(c: Caps, d: Deques, g: Guest, now: int) {
    && |Prune(d.all, now - DAY_S)| < c.daily
    && |Prune(Of(d.mine, g), now - DAY_S)| < c.guest
  }

  function Take(c: Caps, d: Deques, g: Guest, now: int): Deques {
    var all, mine := Prune(d.all, now - DAY_S), Prune(Of(d.mine, g), now - DAY_S);
    if Accepts(c, d, g, now) then Deques(all + [now], d.mine[g := mine + [now]]) else Deques(all, d.mine[g := mine])
  }

  function Logged(c: Caps, d: Deques, l: Log, g: Guest, now: int): Log {
    if Accepts(c, d, g, now) then Log(l.all + [now], l.mine[g := Mine(l, g) + [now]]) else l
  }

  ghost predicate DequeOk(q: seq<int>, log: seq<int>, cap: nat, last: int) {
    && Holds(q, log, last - DAY_S)
    && (q != [] ==> q[|q| - 1] <= last)
    && Rolling(log, cap, DAY_S) && UpTo(log, last)
  }

  ghost predicate Inv(c: Caps, d: Deques, l: Log, last: int) {
    && DequeOk(d.all, l.all, c.daily, last)
    && forall g: Guest :: DequeOk(Of(d.mine, g), Mine(l, g), c.guest, last)
  }

  lemma PruneKeepsDeque(q: seq<int>, log: seq<int>, cap: nat, last: int, now: int)
    requires DequeOk(q, log, cap, last) && last <= now
    ensures DequeOk(Prune(q, now - DAY_S), log, cap, now)
    ensures |Prune(q, now - DAY_S)| == CountAfter(log, now - DAY_S)
  {
    PruneIsEnd(q, now - DAY_S);
    PruneHolds(q, log, last - DAY_S, now - DAY_S);
  }

  lemma LaterDeque(q: seq<int>, log: seq<int>, cap: nat, last: int, now: int)
    requires DequeOk(q, log, cap, last) && last <= now
    ensures DequeOk(q, log, cap, now)
  {
  }

  lemma AppendKeepsDeque(q: seq<int>, log: seq<int>, cap: nat, now: int)
    requires DequeOk(q, log, cap, now) && CountAfter(log, now - DAY_S) < cap
    ensures DequeOk(q + [now], log + [now], cap, now)
  {
    AppendHolds(q, log, now - DAY_S, now);
    AdmitKeepsRolling(log, cap, DAY_S, now);
  }

  lemma TakeKeepsInv(c: Caps, d: Deques, l: Log, last: int, g: Guest, now: int)
    requires Inv(c, d, l, last) && last <= now
    ensures Inv(c, Take(c, d, g, now), Logged(c, d, l, g, now), now)
  {
    hide DequeOk;
    PruneKeepsDeque(d.all, l.all, c.daily, last, now);
    PruneKeepsDeque(Of(d.mine, g), Mine(l, g), c.guest, last, now);
    if Accepts(c, d, g, now) {
      AppendKeepsDeque(Prune(d.all, now - DAY_S), l.all, c.daily, now);
      AppendKeepsDeque(Prune(Of(d.mine, g), now - DAY_S), Mine(l, g), c.guest, now);
    }
    var d', l' := Take(c, d, g, now), Logged(c, d, l, g, now);
    forall h: Guest
      ensures DequeOk(Of(d'.mine, h), Mine(l', h), c.guest, now)
    {
      if h != g {
        LaterDeque(Of(d.mine, h), Mine(l, h), c.guest, last, now);
      }
    }
  }

  /** Both caps, over every span of one day. */
  lemma CapsHold(c: Caps, d: Deques, l: Log, last: int, g: Guest, lo: int)
    requires Inv(c, d, l, last)
    ensures CountIn(l.all, lo, lo + DAY_S) <= c.daily
    ensures CountIn(Mine(l, g), lo, lo + DAY_S) <= c.guest
  {
    RollingBoundsEverySpan(l.all, c.daily, DAY_S, lo);
    assert DequeOk(Of(d.mine, g), Mine(l, g), c.guest, last);
    RollingBoundsEverySpan(Mine(l, g), c.guest, DAY_S, lo);
  }

  /** A call is accepted exactly when the accepted calls of the last day, of all guests and of this
      one, are below both caps. */
  lemma AcceptsExactly(c: Caps, d: Deques, l: Log, last: int, g: Guest, now: int)
    requires Inv(c, d, l, last) && last <= now
    ensures Accepts(c, d, g, now)
            <==> CountIn(l.all, now - 86400 + 1, now + 1) < c.daily
                 && CountIn(Mine(l, g), now - 86400 + 1, now + 1) < c.guest
  {
    assert DequeOk(Of(d.mine, g), Mine(l, g), c.guest, last);
    PruneKeepsDeque(d.all, l.all, c.daily, last, now);
    PruneKeepsDeque(Of(d.mine, g), Mine(l, g), c.guest, last, now);
    AfterIsSpan(l.all, now - DAY_S, now);
    AfterIsSpan(Mine(l, g), now - DAY_S, now);
  }
}
