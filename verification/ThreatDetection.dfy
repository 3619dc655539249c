/** The rolling counters and the rule monitor together: which windows are alerted. */
module ThreatDetection {
  import opened Text
  import opened ThreatCounters
  import opened RuleMonitor

  /** What became of a completed window: its final counts, and whether a check ran while it was the
      last completed one. */
  datatype Closed = Closed(counts: Counts, checked: bool)

  /** `closed` and `alerts` are history. */
  datatype Detection = Detection(counters: ThreatCounters.State, marks: Marks, closed: map<int, Closed>,
                                 alerts: multiset<int>)

  function Init(now: int): Detection {
    Detection(ThreatCounters.State(Window(now, Zero(), Sources({}, false)), None), Marks(None, None), map[], multiset{})
  }

  ghost predicate CountersOk(c: ThreatCounters.State) {
    Complete(c.current.counts) && (c.completed.Some? ==> Complete(c.completed.value.counts))
  }

  /** Any counter access first rolls a window that is over. */
  function Rolled(th: Thresholds, s: Detection, now: int): Detection
    requires CountersOk(s.counters)
  {
    var w := s.counters.current;
    if Over(w, now)
    then s.(counters := Roll(s.counters, now), closed := s.closed[w.start := Closed(w.counts, false)])
    else s
  }

  function Counted(th: Thresholds, s: Detection, now: int, signal: Signal, amount: nat): Detection
    requires CountersOk(s.counters)
  {
    Rolled(th, s, now).(counters := Increment(s.counters, now, signal, amount))
  }

  function Requested(th: Thresholds, s: Detection, cap: nat, now: int, f: Facts): Detection
    requires CountersOk(s.counters)
  {
    Rolled(th, s, now).(counters := Observe(s.counters, cap, now, f))
  }

  /** The first half of a check: the last completed window, if it was not looked at before. */
  function FirstLook(th: Thresholds, s: Detection): (Detection, seq<int>)
    requires CountersOk(s.counters)
  {
    var completed := s.counters.completed;
    var (m, hit) := CheckCompleted(th, s.marks, completed);
    if completed == None then (s.(marks := m), [])
    else
      var start := completed.value.start;
      (Detection(s.counters, m, s.closed[start := Closed(completed.value.counts, true)],
                 s.alerts + if hit then multiset{start} else multiset{}),
       if hit then [start] else [])
  }

  /** The second half: the current window. */
  function SecondLook(th: Thresholds, s: Detection): (Detection, seq<int>)
    requires CountersOk(s.counters)
  {
    var w := Copy(s.counters.current);
    var (m, hit) := CheckSnapshot(th, s.marks, w);
    (s.(marks := m, alerts := s.alerts + if hit then multiset{w.start} else multiset{}),
     if hit then [w.start] else [])
  }

  /** `check`: the new state and the windows alerted, in order. */
  function Checked(th: Thresholds, s: Detection, now: int): (Detection, seq<int>)
    requires CountersOk(s.counters)
  {
    var (s1, a1) := FirstLook(th, Rolled(th, s, now));
    var (s2, a2) := SecondLook(th, s1);
    (s2, a1 + a2)
  }

  // ---- The invariant ---------------------------------------------------------------------------

  ghost predicate AllUpTo(alerts: multiset<int>, top: int) {
    forall w | w in alerts :: w <= top
  }

  /** The last completed window has not been looked at yet. */
  predicate Unseen(s: Detection) {
    s.counters.completed.Some? && s.marks.checked != Some(s.counters.completed.value.start)
  }

  ghost predicate ClosedOk(th: Thresholds, s: Detection)
    requires CountersOk(s.counters)
  {
    var c := s.counters;
    && (forall w | w in s.closed :: w < c.current.start && Complete(s.closed[w].counts))
    && (c.completed == None ==> s.closed == map[] && s.marks.checked == None)
    && (c.completed.Some? ==>
          var last := c.completed.value;
          && last.start in s.closed
          && (forall w | w in s.closed :: w <= last.start)
          && s.closed[last.start].counts == last.counts
          && (s.closed[last.start].checked <==> s.marks.checked == Some(last.start))
          && (s.marks.checked.Some? ==> s.marks.checked.value <= last.start))
  }

  ghost predicate AlertsOk(th: Thresholds, s: Detection)
    requires CountersOk(s.counters)
  {
    && (forall w | w in s.alerts :: s.alerts[w] == 1)
    && (forall w | w in s.alerts ::
          || (w == s.counters.current.start && Triggered(th, s.counters.current.counts))
          || (w in s.closed && Complete(s.closed[w].counts) && Triggered(th, s.closed[w].counts)))
    && (forall w | w in s.closed && s.closed[w].checked
          && Complete(s.closed[w].counts) && Triggered(th, s.closed[w].counts) :: w in s.alerts)
    && (s.marks.alerted == None ==> s.alerts == multiset{})
    && (s.marks.alerted.Some? ==> s.marks.alerted.value in s.alerts && AllUpTo(s.alerts, s.marks.alerted.value))
    && (Unseen(s) ==> AllUpTo(s.alerts, s.counters.completed.value.start))
  }

  ghost predicate Inv(th: Thresholds, s: Detection) {
    CountersOk(s.counters) && ClosedOk(th, s) && AlertsOk(th, s)
  }

  lemma RolledKeepsInv(th: Thresholds, s: Detection, now: int)
    requires Inv(th, s)
    ensures Inv(th, Rolled(th, s, now))
  {
  }

  /** Counts of the current window only grow, so a triggered window stays triggered. */
  lemma GrowthKeepsInv(th: Thresholds, s: Detection, counts: Counts, sources: Sources)
    requires Inv(th, s) && Complete(counts)
    requires forall t: Signal :: counts[t] >= s.counters.current.counts[t]
    ensures var w := s.counters.current;
            Inv(th, s.(counters := s.counters.(current := Window(w.start, counts, sources))))
  {
  }

  lemma CountedKeepsInv(th: Thresholds, s: Detection, now: int, signal: Signal, amount: nat)
    requires Inv(th, s)
    ensures Inv(th, Counted(th, s, now, signal, amount))
  {
    hide ClosedOk, AlertsOk;
    RolledKeepsInv(th, s, now);
    var w := Roll(s.counters, now).current;
    GrowthKeepsInv(th, Rolled(th, s, now), Plus(w.counts, signal, amount), w.sources);
  }

  lemma RequestedKeepsInv(th: Thresholds, s: Detection, cap: nat, now: int, f: Facts)
    requires Inv(th, s)
    ensures Inv(th, Requested(th, s, cap, now, f))
  {
    hide ClosedOk, AlertsOk;
    RolledKeepsInv(th, s, now);
    var w := Roll(s.counters, now).current;
    GrowthKeepsInv(th, Rolled(th, s, now), Observed(w.counts, f), Observe(s.counters, cap, now, f).current.sources);
  }

  lemma FirstLookKeepsInv(th: Thresholds, s: Detection)
    requires Inv(th, s)
    ensures var (s', hits) := FirstLook(th, s);
            && Inv(th, s') && !Unseen(s') && FirstAlerts(s, s', hits)
  {
    hide ClosedOk, AlertsOk, FirstLook;
    FirstLookClosed(th, s);
    FirstLookAlerts(th, s);
  }

  lemma FirstLookClosed(th: Thresholds, s: Detection)
    requires Inv(th, s)
    ensures var s' := FirstLook(th, s).0;
            CountersOk(s'.counters) && ClosedOk(th, s') && !Unseen(s')
  {
    hide AlertsOk;
  }

  lemma FirstLookAlerts(th: Thresholds, s: Detection)
    requires Inv(th, s)
    ensures var (s', hits) := FirstLook(th, s);
            CountersOk(s'.counters) && AlertsOk(th, s') && FirstAlerts(s, s', hits)
  {
    if Unseen(s) {
      UnseenIsAlerted(th, s);
    } else {
      assert s.counters.completed.Some? ==> FirstLook(th, s).0.closed == s.closed;
    }
  }

  lemma UnseenIsAlerted(th: Thresholds, s: Detection)
    requires Inv(th, s) && Unseen(s)
    ensures var (s', hits) := FirstLook(th, s);
            CountersOk(s'.counters) && AlertsOk(th, s') && FirstAlerts(s, s', hits)
  {
    var last := s.counters.completed.value;
    var checked := s.(marks := s.marks.(checked := Some(last.start)),
                      closed := s.closed[last.start := Closed(last.counts, true)]);
    if s.marks.alerted == Some(last.start) || !Triggered(th, last.counts) {
      assert FirstLook(th, s) == (checked, []) by {
        assert s.alerts + multiset{} == s.alerts;
      }
      hide FirstLook, Triggered;
      NothingToAlert(th, s, checked);
    } else {
      var alerted := checked.(marks := checked.marks.(alerted := Some(last.start)),
                              alerts := s.alerts + multiset{last.start});
      assert FirstLook(th, s) == (alerted, [last.start]);
      hide FirstLook, Triggered;
      FirstAlertOf(th, s, alerted);
      assert multiset([last.start]) == multiset{last.start};
    }
  }

  lemma NothingToAlert(th: Thresholds, s: Detection, s': Detection)
    requires Inv(th, s) && Unseen(s)
    requires var last := s.counters.completed.value;
             && (s.marks.alerted == Some(last.start) || !Triggered(th, last.counts))
             && s' == s.(marks := s.marks.(checked := Some(last.start)),
                         closed := s.closed[last.start := Closed(last.counts, true)])
    ensures AlertsOk(th, s')
  {
    hide Triggered;
  }

  lemma FirstAlertOf(th: Thresholds, s: Detection, s': Detection)
    requires Inv(th, s) && Unseen(s)
    requires var last := s.counters.completed.value;
             && s.marks.alerted != Some(last.start) && Triggered(th, last.counts)
             && s' == Detection(s.counters, Marks(Some(last.start), Some(last.start)),
                                s.closed[last.start := Closed(last.counts, true)], s.alerts + multiset{last.start})
    ensures AlertsOk(th, s') && s.counters.completed.value.start !in s.alerts
  {
    hide Triggered;
  }

  lemma SecondLookKeepsInv(th: Thresholds, s: Detection)
    requires Inv(th, s) && !Unseen(s)
    ensures var (s', hits) := SecondLook(th, s);
            Inv(th, s') && FirstAlerts(s, s', hits)
  {
  }

  /** At most one alert was added, for a window without one. */
  ghost predicate FirstAlerts(s: Detection, s': Detection, hits: seq<int>) {
    && s'.alerts == s.alerts + multiset(hits)
    && (hits == [] || (|hits| == 1 && hits[0] !in s.alerts))
  }

  /** Each alert of a check is the first for its window. */
  lemma CheckedKeepsInv(th: Thresholds, s: Detection, now: int)
    requires Inv(th, s)
    ensures var (s', hits) := Checked(th, s, now);
            && Inv(th, s') && s'.alerts == s.alerts + multiset(hits)
            && (forall i | 0 <= i < |hits| :: hits[i] !in s.alerts)
            && |hits| <= 2 && (|hits| == 2 ==> hits[0] != hits[1])
  {
    hide FirstLook, SecondLook, ClosedOk, AlertsOk;
    RolledKeepsInv(th, s, now);
    var s0 := Rolled(th, s, now);
    FirstLookKeepsInv(th, s0);
    var (s1, a1) := FirstLook(th, s0);
    SecondLookKeepsInv(th, s1);
    var (s2, a2) := SecondLook(th, s1);
    assert s2.alerts == s.alerts + multiset(a1) + multiset(a2);
    assert a1 != [] ==> a1[0] in s1.alerts;
  }

  /** A completed window is alerted at most once, never unless some final count reaches its threshold,
      and always if one does and a check ran before the next window completed. */
  lemma AlertedExactlyWhenTriggered(th: Thresholds, s: Detection, w: int)
    requires Inv(th, s) && w in s.closed
    ensures Complete(s.closed[w].counts) && s.alerts[w] <= 1
    ensures s.alerts[w] == 1 ==> Reaches(th, s.closed[w].counts)
    ensures s.closed[w].checked ==> (s.alerts[w] == 1 <==> Reaches(th, s.closed[w].counts))
  {
    TriggeredExactly(th, s.closed[w].counts);
    hide Triggered, Reaches;
  }
}
