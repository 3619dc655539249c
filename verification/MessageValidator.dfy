/** `web/message_check.py`, `MessageValidator`: one call in flight for each guest, over every
    interleaving of checks, timeouts, cancellations and calls that outlive them. Each stretch
    between two awaits is one step. */
module MessageValidator {
  import opened Text
  import opened SlidingWindow
  import opened ValidatorCaps

  type TaskId = nat
  type LockId = nat
  type CallId = nat

  datatype Entry = Entry(lock: LockId, users: nat)

  /** A check is inside from its entry in the lock table until it leaves. */
  datatype Phase = Waiting | Asking
  datatype Task = Task(guest: Guest, lock: LockId, phase: Phase)

  datatype Call = Call(guest: Guest, done: bool)

  /** `held` is the holder of each locked lock; `owner` is history, whose lock each one is. */
  datatype State = State(
    table: map<Guest, Entry>,
    inside: map<TaskId, Task>,
    held: map<LockId, TaskId>,
    owner: map<LockId, Guest>,
    nextLock: LockId,
    running: map<Guest, CallId>,
    calls: map<CallId, Call>)

  const INIT: State := State(map[], map[], map[], map[], 0, map[], map[])

  // ---- The table of locks ---------------------------------------------------------------------

  /** `get(principal, (Lock(), 0))`, then one user more. */
  function Enter(s: State, t: TaskId, g: Guest): State {
    var e := if g in s.table then s.table[g] else Entry(s.nextLock, 0);
    s.(table := s.table[g := Entry(e.lock, e.users + 1)],
       inside := s.inside[t := Task(g, e.lock, Waiting)],
       owner := if g in s.table then s.owner else s.owner[s.nextLock := g],
       nextLock := if g in s.table then s.nextLock else s.nextLock + 1)
  }

  /** The `finally` block, after the lock was released if it was held. */
  function Leave(s: State, t: TaskId): State
    requires t in s.inside && s.inside[t].guest in s.table && s.table[s.inside[t].guest].users > 0
  {
    var task := s.inside[t];
    var users := s.table[task.guest].users - 1;
    s.(table := if users != 0 then s.table[task.guest := Entry(task.lock, users)]
                else map g | g in s.table && g != task.guest :: s.table[g],
       inside := map u | u in s.inside && u != t :: s.inside[u],
       held := if task.phase.Asking? then map l | l in s.held && l != task.lock :: s.held[l] else s.held)
  }

  /** `_still_running`: forget a finished call. */
  function Forget(s: State, g: Guest): State {
    if g in s.running && s.running[g] in s.calls && s.calls[s.running[g]].done
    then s.(running := map h | h in s.running && h != g :: s.running[h]) else s
  }

  predicate StillRunning(s: State, g: Guest) { g in Forget(s, g).running }

  /** The lock is taken and the pool gets the call. */
  function Ask(s: State, t: TaskId, c: CallId): State
    requires t in s.inside
  {
    var task := s.inside[t];
    s.(inside := s.inside[t := task.(phase := Asking)],
       held := s.held[task.lock := t],
       running := s.running[task.guest := c],
       calls := s.calls[c := Call(task.guest, false)])
  }

  datatype Step =
    | EnterStep(t: TaskId, g: Guest)
    | AcquireAndAsk(t: TaskId, c: CallId)
    | AcquireAndPass(t: TaskId)
    | AskEnds(t: TaskId)
    | Cancel(t: TaskId)
    | CallEnds(c: CallId)

  predicate Enabled(s: State, step: Step) {
    match step
    case EnterStep(t, g) => t !in s.inside
    case AcquireAndAsk(t, c) =>
      && t in s.inside && s.inside[t].phase.Waiting? && s.inside[t].lock !in s.held
      && c !in s.calls && !StillRunning(s, s.inside[t].guest)
    case AcquireAndPass(t) => t in s.inside && s.inside[t].phase.Waiting? && s.inside[t].lock !in s.held
    case AskEnds(t) => t in s.inside && s.inside[t].phase.Asking?
    case Cancel(t) => t in s.inside && s.inside[t].phase.Waiting?
    case CallEnds(c) => c in s.calls
  }

  ghost predicate TableOk(s: State) {
    forall t | t in s.inside :: s.inside[t].guest in s.table && s.table[s.inside[t].guest].users > 0
  }

  /** A check that passes at once (a call still running, a cap reached, or a pool that refuses)
      takes the lock and releases it within the step. A check ends whatever its call does. */
  function Next(s: State, step: Step): State
    requires Enabled(s, step) && TableOk(s)
  {
    match step
    case EnterStep(t, g) => Enter(s, t, g)
    case AcquireAndAsk(t, c) => Ask(Forget(s, s.inside[t].guest), t, c)
    case AcquireAndPass(t) => Leave(Forget(s, s.inside[t].guest), t)
    case AskEnds(t) => Leave(s, t)
    case Cancel(t) => Leave(s, t)
    case CallEnds(c) => s.(calls := s.calls[c := s.calls[c].(done := true)])
  }

  // ---- The invariant ---------------------------------------------------------------------------

  function InsideFor(inside: map<TaskId, Task>, g: Guest): set<TaskId> {
    set t | t in inside && inside[t].guest == g
  }

  ghost predicate CountsOk(s: State) {
    && (forall g | g in s.table :: s.table[g].users == |InsideFor(s.inside, g)| > 0)
    && (forall t | t in s.inside :: s.inside[t].guest in s.table && s.inside[t].lock == s.table[s.inside[t].guest].lock)
  }

  ghost predicate LocksOk(s: State) {
    && (forall l | l in s.owner :: l < s.nextLock)
    && (forall g | g in s.table :: s.table[g].lock in s.owner && s.owner[s.table[g].lock] == g)
    && (forall l | l in s.held ::
          s.held[l] in s.inside && s.inside[s.held[l]].phase.Asking? && s.inside[s.held[l]].lock == l)
    && (forall t | t in s.inside && s.inside[t].phase.Asking? ::
          s.inside[t].lock in s.held && s.held[s.inside[t].lock] == t)
  }

  ghost predicate CallsOk(s: State) {
    && (forall c | c in s.calls && !s.calls[c].done :: s.calls[c].guest in s.running && s.running[s.calls[c].guest] == c)
    && (forall g | g in s.running :: s.running[g] in s.calls && s.calls[s.running[g]].guest == g)
  }

  ghost predicate Inv(s: State) { CountsOk(s) && LocksOk(s) && CallsOk(s) }

  lemma InvTable(s: State)
    requires CountsOk(s)
    ensures TableOk(s)
  {
  }

  lemma ForgetKeepsInv(s: State, g: Guest)
    requires Inv(s)
    ensures Inv(Forget(s, g)) && Forget(s, g).inside == s.inside && Forget(s, g).held == s.held
    ensures Forget(s, g).table == s.table && Forget(s, g).calls == s.calls
    ensures !StillRunning(s, g) ==> forall c | c in s.calls && s.calls[c].guest == g :: s.calls[c].done
  {
  }

  lemma EnterAddsOne(s: State, t: TaskId, g: Guest, h: Guest)
    requires t !in s.inside
    ensures InsideFor(Enter(s, t, g).inside, h) == InsideFor(s.inside, h) + (if h == g then {t} else {})
    ensures t !in InsideFor(s.inside, h)
  {
  }

  lemma EnterKeepsCounts(s: State, t: TaskId, g: Guest)
    requires CountsOk(s) && t !in s.inside
    ensures CountsOk(Enter(s, t, g))
  {
    var s' := Enter(s, t, g);
    forall h | h in s'.table
      ensures s'.table[h].users == |InsideFor(s'.inside, h)| > 0
    {
      EnterAddsOne(s, t, g, h);
      if h !in s.table { NobodyInside(s, h); }
      hide InsideFor;
    }
  }

  lemma NobodyInside(s: State, g: Guest)
    requires CountsOk(s) && g !in s.table
    ensures InsideFor(s.inside, g) == {}
  {
  }

  lemma EnterKeepsLocks(s: State, t: TaskId, g: Guest)
    requires CountsOk(s) && LocksOk(s) && t !in s.inside
    ensures LocksOk(Enter(s, t, g))
  {
  }

  lemma AskKeepsCounts(s: State, t: TaskId, c: CallId)
    requires CountsOk(s) && t in s.inside
    ensures CountsOk(Ask(s, t, c))
  {
    forall g: Guest
      ensures InsideFor(Ask(s, t, c).inside, g) == InsideFor(s.inside, g)
    {
    }
  }

  lemma AskKeepsInv(s: State, t: TaskId, c: CallId)
    requires Inv(s) && t in s.inside && s.inside[t].phase.Waiting? && s.inside[t].lock !in s.held && c !in s.calls
    requires forall d | d in s.calls && s.calls[d].guest == s.inside[t].guest :: s.calls[d].done
    ensures Inv(Ask(s, t, c))
  {
    hide InsideFor, CountsOk;
    AskKeepsCounts(s, t, c);
  }

  lemma LeaveKeepsCounts(s: State, t: TaskId)
    requires CountsOk(s) && t in s.inside
    ensures TableOk(s) && CountsOk(Leave(s, t))
  {
    var s', g := Leave(s, t), s.inside[t].guest;
    assert InsideFor(s'.inside, g) == InsideFor(s.inside, g) - {t};
    forall h: Guest | h != g
      ensures InsideFor(s'.inside, h) == InsideFor(s.inside, h)
    {
    }
    assert |InsideFor(s'.inside, g)| == |InsideFor(s.inside, g)| - 1;
    forall u | u in s'.inside
      ensures s'.inside[u].guest == g ==> |InsideFor(s'.inside, g)| > 0
    {
      if s'.inside[u].guest == g {
        assert u in InsideFor(s'.inside, g);
      }
    }
  }

  lemma LeaveKeepsLocks(s: State, t: TaskId)
    requires CountsOk(s) && LocksOk(s) && t in s.inside
    ensures TableOk(s) && LocksOk(Leave(s, t))
  {
    InvTable(s);
  }

  lemma NextKeepsInv(s: State, step: Step)
    requires Inv(s) && Enabled(s, step)
    ensures TableOk(s) && Inv(Next(s, step))
  {
    InvTable(s);
    match step {
      case EnterStep(t, g) =>
        EnterKeepsCounts(s, t, g);
        EnterKeepsLocks(s, t, g);
      case AcquireAndAsk(t, c) =>
        ForgetKeepsInv(s, s.inside[t].guest);
        AskKeepsInv(Forget(s, s.inside[t].guest), t, c);
      case AcquireAndPass(t) =>
        ForgetKeepsInv(s, s.inside[t].guest);
        LeaveKeepsCounts(Forget(s, s.inside[t].guest), t);
        LeaveKeepsLocks(Forget(s, s.inside[t].guest), t);
      case AskEnds(t) =>
        LeaveKeepsCounts(s, t);
        LeaveKeepsLocks(s, t);
      case Cancel(t) =>
        LeaveKeepsCounts(s, t);
        LeaveKeepsLocks(s, t);
      case CallEnds(c) =>
    }
  }

  // ---- The whole validator ---------------------------------------------------------------------

  datatype Validator = Validator(locks: State, deques: Deques, log: Log, clock: int)

  datatype Event =
    | Enters(t: TaskId, g: Guest)
    | Acquires(t: TaskId, c: CallId, now: int, poolRefuses: bool)
    | AnswerOrTimeout(t: TaskId)
    | Cancelled(t: TaskId)
    | CallFinishes(c: CallId)

  function Start(clock: int): Validator { Validator(INIT, Deques([], map[]), Log([], map[]), clock) }

  /** The step of the lock protocol an event is. */
  function StepOf(caps: Caps, v: Validator, e: Event): Step {
    match e
    case Enters(t, g) => EnterStep(t, g)
    case Acquires(t, c, now, poolRefuses) =>
      if t in v.locks.inside && !StillRunning(v.locks, v.locks.inside[t].guest)
         && Accepts(caps, v.deques, v.locks.inside[t].guest, now) && !poolRefuses
      then AcquireAndAsk(t, c) else AcquireAndPass(t)
    case AnswerOrTimeout(t) => AskEnds(t)
    case Cancelled(t) => Cancel(t)
    case CallFinishes(c) => CallEnds(c)
  }

  /** Clock readings do not go back; a new call is a new future. */
  predicate Possible(caps: Caps, v: Validator, e: Event) {
    && Enabled(v.locks, StepOf(caps, v, e))
    && (e.Acquires? ==> v.clock <= e.now)
  }

  /** `_take_call` runs only when no call of the guest is still running. */
  function React(caps: Caps, v: Validator, e: Event): Validator
    requires TableOk(v.locks) && Possible(caps, v, e)
  {
    var locks := Next(v.locks, StepOf(caps, v, e));
    if e.Acquires? && !StillRunning(v.locks, v.locks.inside[e.t].guest) then
      var g := v.locks.inside[e.t].guest;
      Validator(locks, Take(caps, v.deques, g, e.now), Logged(caps, v.deques, v.log, g, e.now), e.now)
    else v.(locks := locks)
  }

  ghost predicate AllInv(caps: Caps, v: Validator) {
    Inv(v.locks) && ValidatorCaps.Inv(caps, v.deques, v.log, v.clock)
  }

  lemma ReactKeepsInv(caps: Caps, v: Validator, e: Event)
    requires AllInv(caps, v) && Possible(caps, v, e)
    ensures TableOk(v.locks) && AllInv(caps, React(caps, v, e))
  {
    hide CountsOk, LocksOk, CallsOk, Next, Take, Logged;
    NextKeepsInv(v.locks, StepOf(caps, v, e));
    if e.Acquires? && !StillRunning(v.locks, v.locks.inside[e.t].guest) {
      TakeKeepsInv(caps, v.deques, v.log, v.clock, v.locks.inside[e.t].guest, e.now);
    }
  }

  /** `v` is reached from `from` by some interleaving of events. */
  ghost predicate Reaches(caps: Caps, from: Validator, events: seq<Event>, v: Validator)
    decreases |events|
  {
    if events == [] then v == from
    else TableOk(from.locks) && Possible(caps, from, events[0]) && Reaches(caps, React(caps, from, events[0]), events[1..], v)
  }

  lemma {:induction false} ReachesKeepsInv(caps: Caps, from: Validator, events: seq<Event>, v: Validator)
    requires AllInv(caps, from) && Reaches(caps, from, events, v)
    ensures AllInv(caps, v)
    decreases |events|
  {
    if events != [] {
      ReactKeepsInv(caps, from, events[0]);
      ReachesKeepsInv(caps, React(caps, from, events[0]), events[1..], v);
    }
  }

  /** In every interleaving: a guest has a lock entry exactly while a check of it is inside, its
      count is the number of those checks, and all of them share the entry's lock, which at
      most one of them holds. */
  lemma EntryCountsChecks(caps: Caps, start: int, events: seq<Event>, v: Validator, g: Guest)
    requires Reaches(caps, Start(start), events, v)
    ensures var s := v.locks;
            && (g in s.table <==> InsideFor(s.inside, g) != {})
            && (g in s.table ==> s.table[g].users == |InsideFor(s.inside, g)|)
            && (forall t | t in InsideFor(s.inside, g) :: g in s.table && s.inside[t].lock == s.table[g].lock)
            && (forall t, u | t in InsideFor(s.inside, g) && u in InsideFor(s.inside, g)
                  && s.inside[t].phase.Asking? && s.inside[u].phase.Asking? :: t == u)
  {
    ReachesKeepsInv(caps, Start(start), events, v) by { assert AllInv(caps, Start(start)); }
    var s := v.locks;
    if g in s.table {
      assert |InsideFor(s.inside, g)| > 0;
    }
    if t :| t in InsideFor(s.inside, g) {
      assert s.inside[t].guest == g;
    }
    forall t, u | t in InsideFor(s.inside, g) && u in InsideFor(s.inside, g)
        && s.inside[t].phase.Asking? && s.inside[u].phase.Asking?
      ensures t == u
    {
      assert s.inside[t].lock == s.inside[u].lock;
    }
  }

  /** In every interleaving at most one call of a guest is unfinished, even when calls outlive
      the checks that made them. */
  lemma OneUnfinishedCall(caps: Caps, start: int, events: seq<Event>, v: Validator, c: CallId, d: CallId)
    requires Reaches(caps, Start(start), events, v)
    requires c in v.locks.calls && d in v.locks.calls && v.locks.calls[c].guest == v.locks.calls[d].guest
    requires !v.locks.calls[c].done && !v.locks.calls[d].done
    ensures c == d
  {
    ReachesKeepsInv(caps, Start(start), events, v) by { assert AllInv(caps, Start(start)); }
  }

  /** In every interleaving, accepted calls stay within both caps in any day. */
  lemma DailyCapsHold(caps: Caps, start: int, events: seq<Event>, v: Validator, g: Guest, lo: int)
    requires Reaches(caps, Start(start), events, v)
    ensures CountIn(v.log.all, lo, lo + DAY_S) <= caps.daily
    ensures CountIn(Mine(v.log, g), lo, lo + DAY_S) <= caps.guest
  {
    ReachesKeepsInv(caps, Start(start), events, v) by { assert AllInv(caps, Start(start)); }
    CapsHold(caps, v.deques, v.log, v.clock, g, lo);
  }

  /** Some call of the guest has not ended. */
  predicate Unfinished(s: State, g: Guest) {
    exists c | c in s.calls :: s.calls[c].guest == g && !s.calls[c].done
  }

  lemma StillRunningIs(s: State, g: Guest)
    requires CallsOk(s)
    ensures StillRunning(s, g) <==> Unfinished(s, g)
  {
    if StillRunning(s, g) {
      var c := s.running[g];
      assert s.calls[c].guest == g && !s.calls[c].done;
    }
  }

  /** In every interleaving, a call of the guest counts as still running exactly while one has not
      ended, whether the check that made it is still inside or not. */
  lemma StillRunningExactly(caps: Caps, start: int, events: seq<Event>, v: Validator, g: Guest)
    requires Reaches(caps, Start(start), events, v)
    ensures StillRunning(v.locks, g) <==> Unfinished(v.locks, g)
  {
    ReachesKeepsInv(caps, Start(start), events, v) by { assert AllInv(caps, Start(start)); }
    StillRunningIs(v.locks, g);
  }

  /** The accepted calls of the last day are below both caps. */
  predicate BelowCaps(caps: Caps, log: Log, g: Guest, now: int) {
    && CountIn(log.all, now - 86400 + 1, now + 1) < caps.daily
    && CountIn(Mine(log, g), now - 86400 + 1, now + 1) < caps.guest
  }

  /** In every interleaving, a check that gets the lock asks exactly when its guest has no unfinished
      call, the accepted calls of the last day are below both caps, and the pool takes the call. It
      stays inside exactly if it asks. Reaching the caps test uses up one of the day's calls. */
  lemma AsksExactlyWhen(caps: Caps, start: int, events: seq<Event>, v: Validator, e: Event)
    requires Reaches(caps, Start(start), events, v)
    requires e.Acquires? && Possible(caps, v, e) && e.c !in v.locks.calls
    ensures TableOk(v.locks) && e.t in v.locks.inside
    ensures var g, v' := v.locks.inside[e.t].guest, React(caps, v, e);
            var taken := !Unfinished(v.locks, g) && BelowCaps(caps, v.log, g, e.now);
            && (e.c in v'.locks.calls <==> taken && !e.poolRefuses)
            && (e.c in v'.locks.calls ==> v'.locks.calls[e.c] == Call(g, false))
            && (e.t in v'.locks.inside <==> taken && !e.poolRefuses)
            && v'.log == (if taken then Log(v.log.all + [e.now], v.log.mine[g := Mine(v.log, g) + [e.now]]) else v.log)
  {
    ReachesKeepsInv(caps, Start(start), events, v) by { assert AllInv(caps, Start(start)); }
    hide Reaches, CountsOk, LocksOk, CallsOk, BelowCaps;
    InvTable(v.locks);
    var g := v.locks.inside[e.t].guest;
    StillRunningIs(v.locks, g);
    CapsAreCounted(caps, v, g, e.now);
    hide Unfinished, Accepts, AllInv, Take;
  }

  lemma CapsAreCounted(caps: Caps, v: Validator, g: Guest, now: int)
    requires ValidatorCaps.Inv(caps, v.deques, v.log, v.clock) && v.clock <= now
    ensures Accepts(caps, v.deques, g, now) <==> BelowCaps(caps, v.log, g, now)
  {
    AcceptsExactly(caps, v.deques, v.log, v.clock, g, now);
  }

  /** Some check of the guest is asking. */
  predicate SomeoneAsks(s: State, g: Guest) {
    exists t | t in s.inside :: s.inside[t].guest == g && s.inside[t].phase.Asking?
  }

  lemma LockIsHeldExactly(s: State, t: TaskId)
    requires Inv(s) && t in s.inside
    ensures s.inside[t].lock in s.held <==> SomeoneAsks(s, s.inside[t].guest)
  {
    var g, l := s.inside[t].guest, s.inside[t].lock;
    if l in s.held {
      var u := s.held[l];
      assert s.owner[l] == s.inside[u].guest;
    }
  }

  /** In every interleaving: a check that waits can go on exactly while no check of its guest asks, and
      can be cancelled; one that asks can end. Nothing else holds a check up. */
  lemma ChecksCanGoOn(caps: Caps, start: int, events: seq<Event>, v: Validator, t: TaskId, c: CallId, now: int, refuses: bool)
    requires Reaches(caps, Start(start), events, v) && t in v.locks.inside
    requires c !in v.locks.calls && v.clock <= now
    ensures var task := v.locks.inside[t];
            && (Possible(caps, v, Acquires(t, c, now, refuses)) <==> task.phase.Waiting? && !SomeoneAsks(v.locks, task.guest))
            && (Possible(caps, v, Cancelled(t)) <==> task.phase.Waiting?)
            && (Possible(caps, v, AnswerOrTimeout(t)) <==> task.phase.Asking?)
  {
    ReachesKeepsInv(caps, Start(start), events, v) by { assert AllInv(caps, Start(start)); }
    LockIsHeldExactly(v.locks, t);
    hide AllInv, Reaches, SomeoneAsks;
    WaitingCanAcquire(caps, v, t, c, now, refuses);
  }

  lemma WaitingCanAcquire(caps: Caps, v: Validator, t: TaskId, c: CallId, now: int, refuses: bool)
    requires t in v.locks.inside && c !in v.locks.calls && v.clock <= now
    ensures var task := v.locks.inside[t];
            && (Possible(caps, v, Acquires(t, c, now, refuses)) <==> task.phase.Waiting? && task.lock !in v.locks.held)
            && (Possible(caps, v, Cancelled(t)) <==> task.phase.Waiting?)
            && (Possible(caps, v, AnswerOrTimeout(t)) <==> task.phase.Asking?)
  {
    hide Accepts, StillRunning;
  }

  /** Entering adds a waiting check of the guest; an answer, a timeout or a cancellation takes the check
      out; a call that ends leaves its guest without an unfinished one. Only a check that gets the lock
      can use up a call of the day. */
  lemma EventsExactly(caps: Caps, start: int, events: seq<Event>, v: Validator, e: Event)
    requires Reaches(caps, Start(start), events, v) && Possible(caps, v, e) && !e.Acquires?
    ensures TableOk(v.locks)
    ensures var inside, v' := v.locks.inside, React(caps, v, e);
            && v'.log == v.log && v'.deques == v.deques
            && (e.Enters? ==>
                  && v'.locks.inside.Keys == inside.Keys + {e.t} && v'.locks.inside[e.t].guest == e.g
                  && v'.locks.inside[e.t].phase.Waiting?)
            && (e.AnswerOrTimeout? || e.Cancelled? ==> v'.locks.inside.Keys == inside.Keys - {e.t})
            && (e.CallFinishes? ==>
                  && v'.locks.inside == inside && e.c in v.locks.calls
                  && (!v.locks.calls[e.c].done ==> !Unfinished(v'.locks, v.locks.calls[e.c].guest)))
  {
    ReachesKeepsInv(caps, Start(start), events, v) by { assert AllInv(caps, Start(start)); }
    InvTable(v.locks);
  }

  // ---- The class: what runs between two awaits -------------------------------------------------

  class MessageValidator {
    const dailyCap: nat
    const guestCap: nat
    var calls: seq<int>
    var guestCalls: map<Guest, seq<int>>
    var guestLocks: map<Guest, Entry>
    var nextLock: LockId

    function Queues(): Deques
      reads this
    {
      Deques(calls, guestCalls)
    }

    /** One guest gets at least one call and at most a tenth of the daily cap. */
    constructor (dailyCap: nat)
      ensures Queues() == Deques([], map[]) && guestLocks == map[]
      ensures this.dailyCap == dailyCap && guestCap == (if dailyCap < 10 then 1 else dailyCap / 10)
    {
      this.dailyCap := dailyCap;
      this.guestCap := if dailyCap / 10 < 1 then 1 else dailyCap / 10;
      calls, guestCalls, guestLocks, nextLock := [], map[], map[], 0;
    }

    method TakeCall(g: Guest, now: int) returns (ok: bool)
      modifies this`calls, this`guestCalls
      ensures Queues() == Take(Caps(dailyCap, guestCap), old(Queues()), g, now)
      ensures ok == Accepts(Caps(dailyCap, guestCap), old(Queues()), g, now)
    {
      var mine := if g in guestCalls then guestCalls[g] else [];
      calls := DropOld(calls, now - DAY_S);
      mine := DropOld(mine, now - DAY_S);
      guestCalls := guestCalls[g := mine];
      if |calls| >= dailyCap || |mine| >= guestCap {
        return false;
      }
      calls := calls + [now];
      guestCalls := guestCalls[g := mine + [now]];
      return true;
    }

    /** The step `Enter` of the system, for any state that has this table and counter. */
    method EnterTable(g: Guest) returns (lock: LockId)
      modifies this`guestLocks, this`nextLock
      ensures forall s: State, t | s.table == old(guestLocks) && s.nextLock == old(nextLock) ::
                var s' := Enter(s, t, g);
                guestLocks == s'.table && nextLock == s'.nextLock && lock == s'.inside[t].lock
    {
      var users := 0;
      if g in guestLocks {
        lock, users := guestLocks[g].lock, guestLocks[g].users;
      } else {
        lock, nextLock := nextLock, nextLock + 1;
      }
      guestLocks := guestLocks[g := Entry(lock, users + 1)];
    }

    /** The step `Leave`, for any state that has this table and a check of `g` with this lock. */
    method LeaveTable(g: Guest, lock: LockId)
      requires g in guestLocks && guestLocks[g].users > 0 && guestLocks[g].lock == lock
      modifies this`guestLocks
      ensures forall s: State, t | s.table == old(guestLocks) && t in s.inside
                && s.inside[t].guest == g && s.inside[t].lock == lock :: guestLocks == Leave(s, t).table
    {
      var users := guestLocks[g].users - 1;
      ghost var was := guestLocks;
      if users != 0 {
        guestLocks := guestLocks[g := Entry(lock, users)];
      } else {
        guestLocks := guestLocks - {g};
        assert guestLocks == map h | h in was && h != g :: was[h];
      }
    }
  }

  /** Entering and leaving again restores the table, whatever happened to other guests. */
  lemma LeaveUndoesEnter(s: State, t: TaskId, g: Guest)
    requires Inv(s) && t !in s.inside
    ensures var e := Enter(s, t, g);
            && t in e.inside && g in e.table && e.table[g].users > 0
            && Leave(e, t).table == s.table && Leave(e, t).inside == s.inside
  {
    var e := Enter(s, t, g);
    assert Leave(e, t).inside == s.inside;
    if g in s.table {
      assert s.table[g].users > 0;
    }
    assert Leave(e, t).table == s.table;
  }
}
