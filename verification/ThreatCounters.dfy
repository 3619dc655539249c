/** `threat.py`, `ThreatCounters`: counts and capped source hashes of one 15-minute window. */
module ThreatCounters {
  import opened Text

  const WINDOW_SECONDS: int := 15 * 60

  datatype Signal =
    | Requests | Probes | RefusedResponses | EntryPosts | MailSends | ReservedAddresses
    | FailedSends | BudgetHits | MessagesBlocked | MessagesFlagged | MessagesUnchecked

  const ALL: set<Signal> := {
    Requests, Probes, RefusedResponses, EntryPosts, MailSends, ReservedAddresses,
    FailedSends, BudgetHits, MessagesBlocked, MessagesFlagged, MessagesUnchecked}

  type Hash = string
  type Counts = map<Signal, nat>

  ghost predicate Complete(counts: Counts) { forall s: Signal :: s in counts }

  lemma AllIsAll(s: Signal)
    ensures s in ALL
  {
  }

  function Zero(): (z: Counts)
    ensures Complete(z) && forall s: Signal :: z[s] == 0
  {
    assert forall s: Signal :: s in ALL by { forall s: Signal { AllIsAll(s); } }
    map s | s in ALL :: 0
  }

  function Plus(counts: Counts, s: Signal, n: nat): (r: Counts)
    requires Complete(counts)
    ensures Complete(r)
    ensures forall t: Signal :: r[t] == counts[t] + if t == s then n else 0
  {
    counts[s := counts[s] + n]
  }

  /** A counts-only copy. */
  datatype Snapshot = Snapshot(start: int, counts: Counts, distinctSources: nat, capped: bool)

  datatype Sources = Sources(hashes: set<Hash>, capped: bool)

  datatype Window = Window(start: int, counts: Counts, sources: Sources)

  datatype State = State(current: Window, completed: Option<Snapshot>)

  function Copy(w: Window): Snapshot {
    Snapshot(w.start, w.counts, |w.sources.hashes|, w.sources.capped)
  }

  predicate Over(w: Window, now: int) { now - w.start >= WINDOW_SECONDS }

  /** `_roll_window` */
  function Roll(s: State, now: int): State {
    if Over(s.current, now) then State(Window(now, Zero(), Sources({}, false)), Some(Copy(s.current))) else s
  }

  /** `_retain_source` */
  function Retain(s: Sources, cap: nat, h: Hash): Sources {
    if h in s.hashes then s
    else if |s.hashes| >= cap then s.(capped := true)
    else s.(hashes := s.hashes + {h})
  }

  /** The facts one request adds. */
  datatype Facts = Facts(isProbe: bool, isRefused: bool, isEntryPost: bool, source: Option<Hash>)

  function One(b: bool): nat { if b then 1 else 0 }

  function Observed(counts: Counts, f: Facts): (r: Counts)
    requires Complete(counts)
    ensures Complete(r)
  {
    Plus(Plus(Plus(Plus(counts, Requests, 1), Probes, One(f.isProbe)), RefusedResponses, One(f.isRefused)),
         EntryPosts, One(f.isEntryPost))
  }

  function Increment(s: State, now: int, signal: Signal, amount: nat): State
    requires Complete(s.current.counts)
  {
    var r := Roll(s, now);
    r.(current := r.current.(counts := Plus(r.current.counts, signal, amount)))
  }

  function Observe(s: State, cap: nat, now: int, f: Facts): State
    requires Complete(s.current.counts)
  {
    var w := Roll(s, now).current;
    var sources := if f.source.Some? then Retain(w.sources, cap, f.source.value) else w.sources;
    State(Window(w.start, Observed(w.counts, f), sources), Roll(s, now).completed)
  }

  // ---- A run inside one window ------------------------------------------------------------------

  datatype Update = Bump(now: int, signal: Signal, amount: nat) | Seen(now: int, f: Facts)

  function Updated(s: State, cap: nat, u: Update): (r: State)
    requires Complete(s.current.counts)
    ensures Complete(r.current.counts)
  {
    match u
    case Bump(now, signal, amount) => Increment(s, now, signal, amount)
    case Seen(now, f) => Observe(s, cap, now, f)
  }

  function Run(s: State, cap: nat, run: seq<Update>): (r: State)
    requires Complete(s.current.counts)
    ensures Complete(r.current.counts)
    decreases |run|
  {
    if run == [] then s else Run(Updated(s, cap, run[0]), cap, run[1..])
  }

  /** What one update is worth to the count of `t`. */
  function Worth(u: Update, t: Signal): nat {
    match u
    case Bump(_, signal, amount) => if signal == t then amount else 0
    case Seen(_, f) =>
      match t
      case Requests => 1
      case Probes => if f.isProbe then 1 else 0
      case RefusedResponses => if f.isRefused then 1 else 0
      case EntryPosts => if f.isEntryPost then 1 else 0
      case _ => 0
  }

  function Total(run: seq<Update>, t: Signal): nat {
    if run == [] then 0 else Worth(run[0], t) + Total(run[1..], t)
  }

  lemma UpdateAddsItsWorth(s: State, cap: nat, u: Update, t: Signal)
    requires Complete(s.current.counts) && !Over(s.current, u.now)
    ensures var s' := Updated(s, cap, u);
            && s'.current.start == s.current.start && s'.completed == s.completed
            && s'.current.counts[t] == s.current.counts[t] + Worth(u, t)
  {
  }

  /** Inside one window nothing is lost or counted twice: after any run of updates that come before
      the window is over, every count has grown by exactly what the run was worth. */
  lemma {:induction false} CountsAreTotals(s: State, cap: nat, run: seq<Update>, t: Signal)
    requires Complete(s.current.counts)
    requires forall i | 0 <= i < |run| :: !Over(s.current, run[i].now)
    ensures var s' := Run(s, cap, run);
            && s'.current.start == s.current.start && s'.completed == s.completed
            && s'.current.counts[t] == s.current.counts[t] + Total(run, t)
    decreases |run|
  {
    if run != [] {
      UpdateAddsItsWorth(s, cap, run[0], t);
      CountsAreTotals(Updated(s, cap, run[0]), cap, run[1..], t);
    }
  }

  // ---- The capped source set --------------------------------------------------------------------

  /** Retaining every hash of one window, in order. */
  function RetainAll(s: Sources, cap: nat, hashes: seq<Hash>): Sources
    decreases |hashes|
  {
    if hashes == [] then s else RetainAll(Retain(s, cap, hashes[0]), cap, hashes[1..])
  }

  ghost predicate SourcesOk(s: Sources, cap: nat, seen: set<Hash>) {
    && s.hashes <= seen && |s.hashes| <= cap
    && (!s.capped ==> s.hashes == seen)
    && (s.capped ==> |s.hashes| == cap && s.hashes != seen)
  }

  lemma {:induction false} RetainAllOk(s: Sources, cap: nat, seen: set<Hash>, hashes: seq<Hash>)
    requires SourcesOk(s, cap, seen)
    ensures SourcesOk(RetainAll(s, cap, hashes), cap, seen + set h | h in hashes)
    decreases |hashes|
  {
    if hashes == [] {
      assert seen + (set h | h in hashes) == seen;
    } else {
      RetainOk(s, cap, seen, hashes[0]);
      RetainAllOk(Retain(s, cap, hashes[0]), cap, seen + {hashes[0]}, hashes[1..]);
      FirstAndRest(seen, hashes);
    }
  }

  lemma RetainOk(s: Sources, cap: nat, seen: set<Hash>, h: Hash)
    requires SourcesOk(s, cap, seen)
    ensures SourcesOk(Retain(s, cap, h), cap, seen + {h})
  {
  }

  lemma FirstAndRest(seen: set<Hash>, hashes: seq<Hash>)
    requires hashes != []
    ensures seen + (set h | h in hashes) == seen + {hashes[0]} + (set h | h in hashes[1..])
  {
    assert hashes == [hashes[0]] + hashes[1..];
  }

  lemma {:induction false} ProperSubsetIsSmaller(a: set<Hash>, b: set<Hash>)
    requires a < b
    ensures |a| < |b|
  {
    if a == {} {
      var x :| x in b;
    } else {
      var x :| x in a;
      ProperSubsetIsSmaller(a - {x}, b - {x});
    }
  }

  /** After any requests of one window the count of distinct sources is exact up to the cap,
      and the flag says exactly when it is not. */
  lemma DistinctSourcesAreExactUpToCap(cap: nat, hashes: seq<Hash>)
    ensures var s := RetainAll(Sources({}, false), cap, hashes);
            var distinct := |set h | h in hashes|;
            && |s.hashes| == (if distinct <= cap then distinct else cap)
            && (s.capped <==> distinct > cap)
  {
    RetainAllOk(Sources({}, false), cap, {}, hashes);
    var s := RetainAll(Sources({}, false), cap, hashes);
    var seen := set h | h in hashes;
    assert {} + seen == seen;
    if s.capped {
      ProperSubsetIsSmaller(s.hashes, seen);
    }
  }

  /** The sources the requests of a run showed, in order. */
  function Shown(run: seq<Update>): seq<Hash> {
    if run == [] then []
    else (if run[0].Seen? && run[0].f.source.Some? then [run[0].f.source.value] else []) + Shown(run[1..])
  }

  lemma {:induction false} RunRetainsShown(s: State, cap: nat, run: seq<Update>)
    requires Complete(s.current.counts)
    requires forall i | 0 <= i < |run| :: !Over(s.current, run[i].now)
    ensures Run(s, cap, run).current.sources == RetainAll(s.current.sources, cap, Shown(run))
    decreases |run|
  {
    if run != [] {
      UpdateAddsItsWorth(s, cap, run[0], Requests);
      RunRetainsShown(Updated(s, cap, run[0]), cap, run[1..]);
      var first := if run[0].Seen? && run[0].f.source.Some? then [run[0].f.source.value] else [];
      if first != [] {
        assert (first + Shown(run[1..]))[1..] == Shown(run[1..]);
      } else {
        assert first + Shown(run[1..]) == Shown(run[1..]);
      }
    }
  }

  /** An update 15 minutes or more after the window began closes it, with its counts and its number of
      sources, and begins another at that moment, whose only counts are the update's. An earlier one
      leaves the windows as they are. */
  lemma WindowsCloseExactly(s: State, cap: nat, u: Update, t: Signal)
    requires Complete(s.current.counts)
    ensures var w, s' := s.current, Updated(s, cap, u);
            if u.now >= w.start + 900 then
              && s'.completed == Some(Snapshot(w.start, w.counts, |w.sources.hashes|, w.sources.capped))
              && s'.current.start == u.now && s'.current.counts[t] == Worth(u, t)
              && s'.current.sources == RetainAll(Sources({}, false), cap, Shown([u]))
            else
              s'.completed == s.completed && s'.current.start == w.start
  {
    assert [u][1..] == [];
    assert Shown([]) == [];
    if u.now >= s.current.start + 900 {
      var begun := State(Window(u.now, Zero(), Sources({}, false)), Some(Copy(s.current)));
      assert Updated(s, cap, u) == Updated(begun, cap, u);
      UpdateAddsItsWorth(begun, cap, u, t);
      assert Updated(begun, cap, u) == Run(begun, cap, [u]);
      RunRetainsShown(begun, cap, [u]);
    }
  }

  /** A window closes with exactly what the updates since it began were worth, and with the number of
      different sources they showed, up to the cap. */
  lemma ClosedWindowHasItsTotals(start: int, completed: Option<Snapshot>, cap: nat, run: seq<Update>, end: Update, t: Signal)
    requires forall i | 0 <= i < |run| :: run[i].now < start + 900
    requires end.now >= start + 900
    ensures var begun := State(Window(start, Zero(), Sources({}, false)), completed);
            var closed := Updated(Run(begun, cap, run), cap, end).completed;
            var distinct := |set h | h in Shown(run)|;
            && closed.Some? && closed.value.start == start
            && t in closed.value.counts && closed.value.counts[t] == Total(run, t)
            && closed.value.distinctSources == (if distinct <= cap then distinct else cap)
            && (closed.value.capped <==> distinct > cap)
  {
    var begun := State(Window(start, Zero(), Sources({}, false)), completed);
    CountsAreTotals(begun, cap, run, t);
    RunRetainsShown(begun, cap, run);
    DistinctSourcesAreExactUpToCap(cap, Shown(run));
    WindowsCloseExactly(Run(begun, cap, run), cap, end, t);
  }

  // ---- The class ----------------------------------------------------------------------------------

  class Counters {
    const cap: nat
    var windowStartedAt: int
    var counts: Counts
    var sourceHashes: set<Hash>
    var sourceCountCapped: bool
    var completed: Option<Snapshot>

    ghost predicate Valid()
      reads this
    {
      Complete(counts)
    }

    function Fields(): State
      reads this
    {
      State(Window(windowStartedAt, counts, Sources(sourceHashes, sourceCountCapped)), completed)
    }

    constructor (now: int, cap: nat)
      ensures Valid() && this.cap == cap
      ensures Fields() == State(Window(now, Zero(), Sources({}, false)), None)
    {
      this.cap := cap;
      windowStartedAt, counts, sourceHashes, sourceCountCapped, completed := now, Zero(), {}, false, None;
    }

    method RollWindow(now: int)
      requires Valid()
      modifies this
      ensures Valid() && Fields() == Roll(old(Fields()), now)
    {
      if now - windowStartedAt < WINDOW_SECONDS {
        return;
      }
      completed := Some(Snapshot(windowStartedAt, counts, |sourceHashes|, sourceCountCapped));
      windowStartedAt := now;
      counts := Zero();
      sourceHashes := {};
      sourceCountCapped := false;
    }

    method RetainSource(h: Hash)
      modifies this`sourceHashes, this`sourceCountCapped
      ensures Sources(sourceHashes, sourceCountCapped)
           == Retain(Sources(old(sourceHashes), old(sourceCountCapped)), cap, h)
    {
      if h in sourceHashes {
        return;
      }
      if |sourceHashes| >= cap {
        sourceCountCapped := true;
        return;
      }
      sourceHashes := sourceHashes + {h};
    }

    method IncrementSignal(now: int, signal: Signal, amount: nat)
      requires Valid()
      modifies this
      ensures Valid() && Fields() == Increment(old(Fields()), now, signal, amount)
    {
      RollWindow(now);
      counts := Plus(counts, signal, amount);
    }

    method ObserveRequest(now: int, isProbe: bool, isRefused: bool, isEntryPost: bool, source: Option<Hash>)
      requires Valid()
      modifies this
      ensures Valid()
      ensures Fields() == Observe(old(Fields()), cap, now, Facts(isProbe, isRefused, isEntryPost, source))
    {
      RollWindow(now);
      counts := Plus(counts, Requests, 1);
      counts := Plus(counts, Probes, One(isProbe));
      counts := Plus(counts, RefusedResponses, One(isRefused));
      counts := Plus(counts, EntryPosts, One(isEntryPost));
      if source.Some? {
        RetainSource(source.value);
      }
    }

    method Snapshots(now: int) returns (last: Option<Snapshot>, current: Snapshot)
      requires Valid()
      modifies this
      ensures Valid() && Fields() == Roll(old(Fields()), now)
      ensures last == Fields().completed && current == Copy(Fields().current)
    {
      RollWindow(now);
      last, current := completed, Snapshot(windowStartedAt, counts, |sourceHashes|, sourceCountCapped);
    }
  }
}
