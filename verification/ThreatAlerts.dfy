/** The whole alert pipeline: request counters, rule monitor, verdict caller, decider threads
    and notifications, over every interleaving. */
module ThreatAlerts {
  import opened Text
  import C = ThreatCounters
  import R = RuleMonitor
  import Detect = ThreatDetection
  import Deliver = ThreatDelivery
  import D = DeciderClient

  datatype Config = Config(th: R.Thresholds, cap: nat, hasDecider: bool)

  /** `pending` are the windows a running check found and has yet to hand on. */
  datatype System = System(detect: Detect.Detection, deliver: Deliver.State, pending: seq<int>)

  /** A check reads both snapshots at once and then hands on its alerts one by one; what other threads
      do may fall in between. Only the check itself uses the monitor's marks. */
  datatype Step =
    | Count(now: int, signal: C.Signal, amount: nat)
    | Request(now: int, facts: C.Facts)
    | Look(now: int)
    | Check(now: int)
    | HandOn(at: int, trouble: Deliver.Trouble)
    | Thread(step: D.Step)

  function Init(now: int): System { System(Detect.Init(now), Deliver.INIT, []) }

  /** The next check begins when the last one is done. */
  predicate Enabled(s: System, step: Step) {
    match step
    case Check(_) => s.pending == []
    case HandOn(_, _) => s.pending != []
    case Thread(t) => D.Enabled(s.deliver.client, t) && !t.Submit? && !t.SubmitRaises?
    case _ => true
  }

  function Next(c: Config, s: System, step: Step): System
    requires Detect.CountersOk(s.detect.counters) && Enabled(s, step)
  {
    match step
    case Count(now, signal, amount) => s.(detect := Detect.Counted(c.th, s.detect, now, signal, amount))
    case Request(now, facts) => s.(detect := Detect.Requested(c.th, s.detect, c.cap, now, facts))
    case Look(now) => s.(detect := Detect.Rolled(c.th, s.detect, now))
    case Check(now) =>
      var (detect, hits) := Detect.Checked(c.th, s.detect, now);
      s.(detect := detect, pending := hits)
    case HandOn(at, trouble) =>
      s.(deliver := Deliver.Alert(s.deliver, c.hasDecider, at, s.pending[0], trouble), pending := s.pending[1..])
    case Thread(step) => s.(deliver := Deliver.Thread(s.deliver, step))
  }

  ghost predicate PendingOk(s: System) {
    && |s.pending| <= 2 && (|s.pending| == 2 ==> s.pending[0] != s.pending[1])
    && (forall w | w in s.pending :: w !in s.deliver.fates)
    && (forall w :: w in s.detect.alerts <==> w in s.deliver.fates || w in s.pending)
  }

  ghost predicate Inv(c: Config, s: System) {
    Detect.Inv(c.th, s.detect) && Deliver.Inv(s.deliver) && PendingOk(s)
  }

  lemma NextKeepsInv(c: Config, s: System, step: Step)
    requires Inv(c, s) && Enabled(s, step)
    ensures Inv(c, Next(c, s, step))
  {
    hide Detect.AlertsOk, Detect.ClosedOk, Deliver.Inv, Detect.Checked, Deliver.Alert, D.Next, D.Enabled;
    match step {
      case Count(now, signal, amount) =>
        Detect.CountedKeepsInv(c.th, s.detect, now, signal, amount);
      case Request(now, facts) =>
        Detect.RequestedKeepsInv(c.th, s.detect, c.cap, now, facts);
      case Look(now) => Detect.RolledKeepsInv(c.th, s.detect, now);
      case Check(now) => CheckKeepsInv(c, s, now);
      case HandOn(at, trouble) => HandOnKeepsInv(c, s, at, trouble);
      case Thread(t) => Deliver.ThreadKeepsInv(s.deliver, t);
    }
  }

  lemma CheckKeepsInv(c: Config, s: System, now: int)
    requires Inv(c, s) && s.pending == []
    ensures Inv(c, Next(c, s, Check(now)))
  {
    hide Detect.ClosedOk, Detect.AlertsOk, Detect.Checked, Deliver.Inv;
    Detect.CheckedKeepsInv(c.th, s.detect, now);
    var (detect, hits) := Detect.Checked(c.th, s.detect, now);
    forall w
      ensures w in detect.alerts <==> w in s.deliver.fates || w in hits
      ensures w in hits ==> w !in s.deliver.fates
    {
      assert w in s.deliver.fates <==> w in s.detect.alerts;
      assert w in hits <==> w in multiset(hits);
    }
  }

  lemma HandOnKeepsInv(c: Config, s: System, at: int, trouble: Deliver.Trouble)
    requires Inv(c, s) && s.pending != []
    ensures Inv(c, Next(c, s, HandOn(at, trouble)))
  {
    hide Detect.Inv, Deliver.Inv, Deliver.Alert;
    var w, rest := s.pending[0], s.pending[1..];
    assert s.pending == [w] + rest;
    Deliver.AlertKeepsInv(s.deliver, c.hasDecider, at, w, trouble);
    var fates := Deliver.Alert(s.deliver, c.hasDecider, at, w, trouble).fates;
    forall x
      ensures x in fates <==> x in s.deliver.fates || x == w
    {
      assert x in fates <==> x in fates.Keys;
    }
  }

  /** `s` is reached from `from` by these steps. */
  ghost predicate Reaches(c: Config, from: System, steps: seq<Step>, s: System)
    decreases |steps|
  {
    if steps == [] then s == from
    else
      && Detect.CountersOk(from.detect.counters) && Enabled(from, steps[0])
      && Reaches(c, Next(c, from, steps[0]), steps[1..], s)
  }

  lemma {:induction false} ReachesKeepsInv(c: Config, from: System, steps: seq<Step>, s: System)
    requires Inv(c, from) && Reaches(c, from, steps, s)
    ensures Inv(c, s)
    decreases |steps|
  {
    if steps != [] {
      NextKeepsInv(c, from, steps[0]);
      ReachesKeepsInv(c, Next(c, from, steps[0]), steps[1..], s);
    }
  }

  lemma InitInv(c: Config, start: int)
    ensures Inv(c, Init(start))
  {
  }

  lemma WindowsOfAlert(c: Config, s: System, w: int)
    requires Inv(c, s)
    ensures s.detect.alerts[w] <= 1
    ensures w in s.detect.closed ==>
              && C.Complete(s.detect.closed[w].counts)
              && (s.detect.alerts[w] == 1 ==> R.Reaches(c.th, s.detect.closed[w].counts))
              && (s.detect.closed[w].checked ==>
                    (s.detect.alerts[w] == 1 <==> R.Reaches(c.th, s.detect.closed[w].counts)))
  {
    hide Deliver.Inv, PendingOk;
    if w in s.detect.closed {
      Detect.AlertedExactlyWhenTriggered(c.th, s.detect, w);
    }
  }

  lemma NotificationsOfAlert(c: Config, s: System, w: int)
    requires Inv(c, s)
    ensures |Deliver.Told(s.deliver.notices, w)| <= s.detect.alerts[w]
    ensures w in s.pending ==> Deliver.Told(s.deliver.notices, w) == [] && w in s.detect.alerts
    ensures w in s.detect.alerts && w !in s.pending ==>
              && w in s.deliver.fates
              && (s.deliver.fates[w].ByCallback? ==> s.deliver.fates[w].g in s.deliver.client.jobs)
              && Deliver.RightVerdict(s.deliver, w)
              && (Deliver.Settled(s.deliver, w) ==>
                    (|Deliver.Told(s.deliver.notices, w)| == 1 <==> !Deliver.TimerNeverStarted(s.deliver, w)))
  {
    hide Detect.Inv, Deliver.Settled, Deliver.TimerNeverStarted, Deliver.RightVerdict, Deliver.Told, D.After, D.Inv;
    assert w in s.detect.alerts <==> w in s.deliver.fates || w in s.pending;
    if w in s.deliver.fates {
      Deliver.NotifiedExactlyOnce(s.deliver, w);
    } else {
      assert Deliver.ToldOk(s.deliver, w);
    }
  }

  /** End to end, over every interleaving of counting, checking, handing on and decider threads: a
      completed window that a check saw before the next one completed is alerted exactly once if its
      final counts reach a threshold, and no window is ever alerted otherwise or twice; every alert
      leads to at most one notification, which carries the verdict of its own call, and once it was
      handed on and its threads have ended to exactly one, unless its timer thread could not be
      started. */
  lemma EndToEnd(c: Config, start: int, steps: seq<Step>, s: System, w: int)
    requires Reaches(c, Init(start), steps, s)
    ensures w in s.detect.closed ==>
              && C.Complete(s.detect.closed[w].counts)
              && (s.detect.alerts[w] == 1 ==> R.Reaches(c.th, s.detect.closed[w].counts))
              && (s.detect.closed[w].checked ==>
                    (s.detect.alerts[w] == 1 <==> R.Reaches(c.th, s.detect.closed[w].counts)))
    ensures s.detect.alerts[w] <= 1 && |Deliver.Told(s.deliver.notices, w)| <= s.detect.alerts[w]
    ensures w in s.pending ==> Deliver.Told(s.deliver.notices, w) == [] && w in s.detect.alerts
    ensures w in s.detect.alerts && w !in s.pending ==>
              && w in s.deliver.fates
              && (s.deliver.fates[w].ByCallback? ==> s.deliver.fates[w].g in s.deliver.client.jobs)
              && Deliver.RightVerdict(s.deliver, w)
              && (Deliver.Settled(s.deliver, w) ==>
                    (|Deliver.Told(s.deliver.notices, w)| == 1 <==> !Deliver.TimerNeverStarted(s.deliver, w)))
  {
    InitInv(c, start);
    hide Inv, Init;
    ReachesKeepsInv(c, Init(start), steps, s);
    hide Reaches;
    NotificationsOfAlert(c, s, w);
    WindowsOfAlert(c, s, w);
  }
}
