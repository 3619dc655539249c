/** `rules.py`, `RuleMonitor`: fixed thresholds, checked on the last completed and the current
    window, alerting once for each. */
module RuleMonitor {
  import opened Text
  import opened ThreatCounters

  datatype Thresholds = Thresholds(refused: int, entryPosts: int, reserved: int, failed: int, budget: int)

  /** `_alerted_window` and `_checked_completed_window` */
  datatype Marks = Marks(alerted: Option<int>, checked: Option<int>)

  predicate Triggered(th: Thresholds, counts: Counts)
    requires Complete(counts)
  {
    || counts[RefusedResponses] >= th.refused
    || counts[EntryPosts] >= th.entryPosts
    || counts[ReservedAddresses] >= th.reserved
    || counts[FailedSends] >= th.failed
    || counts[BudgetHits] >= th.budget
  }

  /** The fixed threshold of a signal, if it has one. */
  function ThresholdOf(th: Thresholds, signal: Signal): Option<int> {
    match signal
    case RefusedResponses => Some(th.refused)
    case EntryPosts => Some(th.entryPosts)
    case ReservedAddresses => Some(th.reserved)
    case FailedSends => Some(th.failed)
    case BudgetHits => Some(th.budget)
    case _ => None
  }

  /** Some signal's count is at its threshold or above. */
  predicate Reaches(th: Thresholds, counts: Counts)
    requires Complete(counts)
  {
    exists signal: Signal :: ThresholdOf(th, signal).Some? && counts[signal] >= ThresholdOf(th, signal).value
  }

  lemma TriggeredExactly(th: Thresholds, counts: Counts)
    requires Complete(counts)
    ensures Triggered(th, counts) <==> Reaches(th, counts)
  {
    if Triggered(th, counts) {
      var signal :=
        if counts[RefusedResponses] >= th.refused then RefusedResponses
        else if counts[EntryPosts] >= th.entryPosts then EntryPosts
        else if counts[ReservedAddresses] >= th.reserved then ReservedAddresses
        else if counts[FailedSends] >= th.failed then FailedSends
        else BudgetHits;
      assert ThresholdOf(th, signal).Some? && counts[signal] >= ThresholdOf(th, signal).value;
    }
  }

  /** `_check_snapshot`: the new marks, and whether it alerts. */
  function CheckSnapshot(th: Thresholds, m: Marks, s: Snapshot): (Marks, bool)
    requires Complete(s.counts)
  {
    if m.alerted == Some(s.start) || !Triggered(th, s.counts) then (m, false)
    else (m.(alerted := Some(s.start)), true)
  }

  /** `_check_completed` */
  function CheckCompleted(th: Thresholds, m: Marks, s: Option<Snapshot>): (Marks, bool)
    requires s.Some? ==> Complete(s.value.counts)
  {
    if s == None || m.checked == Some(s.value.start) then (m, false)
    else CheckSnapshot(th, m.(checked := Some(s.value.start)), s.value)
  }

  class Monitor {
    const thresholds: Thresholds
    var alertedWindow: Option<int>
    var checkedCompletedWindow: Option<int>

    function Fields(): Marks
      reads this
    {
      Marks(alertedWindow, checkedCompletedWindow)
    }

    constructor (thresholds: Thresholds)
      ensures Fields() == Marks(None, None) && this.thresholds == thresholds
    {
      this.thresholds := thresholds;
      alertedWindow, checkedCompletedWindow := None, None;
    }

    /** `check` on the pair of snapshots read: the snapshots it alerts on, in order. */
    method Check(completed: Option<Snapshot>, current: Snapshot) returns (alerts: seq<Snapshot>)
      requires Complete(current.counts) && (completed.Some? ==> Complete(completed.value.counts))
      modifies this
      ensures var (m, first) := CheckCompleted(thresholds, old(Fields()), completed);
              var (m', second) := CheckSnapshot(thresholds, m, current);
              && Fields() == m'
              && alerts == (if first then [completed.value] else []) + (if second then [current] else [])
    {
      alerts := [];
      if completed.Some? && checkedCompletedWindow != Some(completed.value.start) {
        checkedCompletedWindow := Some(completed.value.start);
        var hit := CheckOne(completed.value);
        if hit {
          alerts := [completed.value];
        }
      }
      var hit := CheckOne(current);
      if hit {
        alerts := alerts + [current];
      }
    }

    method CheckOne(s: Snapshot) returns (alert: bool)
      requires Complete(s.counts)
      modifies this`alertedWindow
      ensures (Fields(), alert) == CheckSnapshot(thresholds, old(Fields()), s)
    {
      if alertedWindow == Some(s.start) {
        return false;
      }
      if !Triggered(thresholds, s.counts) {
        return false;
      }
      alertedWindow := Some(s.start);
      return true;
    }
  }
}
