/** `session.py`: the roster and mesh refreshes, where a burst of requests shares one pass and a
    request that arrives while a pass runs makes it go round once more.

    A stretch between awaits is one step. The roster pass begins within the request's own step;
    the mesh pass begins when its task first runs. */
module CoalescedRefresh {

  /** `Passing(base)`: a pass runs that began when `base` requests had been made. */
  datatype Phase = Idle | Scheduled | Passing(base: nat)

  /** `asked` requests so far, the first `covered` of them served by a finished pass that began
      after them; `cut`: the last pass or task to end was cancelled. */
  datatype State = State(dirty: bool, phase: Phase, asked: nat, covered: nat, passes: nat, cut: bool)

  const FRESH: State := State(false, Idle, 0, 0, 0, false)

  datatype Step = Request | TaskStarts | PassEnds | Cancel

  /** `dirty = False`, and the pass begins. */
  function Begin(s: State): State {
    s.(dirty := false, phase := Passing(s.asked), passes := s.passes + 1)
  }

  predicate Enabled(s: State, step: Step) {
    match step
    case Request => true
    case TaskStarts => s.phase.Scheduled?
    case PassEnds => s.phase.Passing?
    case Cancel => !s.phase.Idle?
  }

  /** A pass that fails is swallowed, so it ends like one that succeeds. */
  function Next(deferred: bool, s: State, step: Step): State
    requires Enabled(s, step)
  {
    match step
    case Request =>
      var s' := s.(dirty := true, asked := s.asked + 1);
      if !s.phase.Idle? then s' else if deferred then s'.(phase := Scheduled) else Begin(s')
    case TaskStarts => Begin(s)
    case PassEnds =>
      var s' := s.(covered := s.phase.base, cut := false);
      if s.dirty then Begin(s') else s'.(phase := Idle)
    case Cancel => s.(phase := Idle, cut := true)
  }

  predicate Reaches(deferred: bool, from: State, steps: seq<Step>, s: State)
    decreases |steps|
  {
    if steps == [] then s == from
    else Enabled(from, steps[0]) && Reaches(deferred, Next(deferred, from, steps[0]), steps[1..], s)
  }

  predicate Inv(s: State) {
    match s.phase
    case Idle => s.passes <= s.asked && s.covered <= s.asked && (s.covered == s.asked <==> !s.cut) && (!s.cut ==> !s.dirty)
    case Scheduled => s.passes < s.asked && s.covered < s.asked && s.dirty
    case Passing(base) => s.passes <= base && s.covered < base <= s.asked && (s.dirty <==> base < s.asked)
  }

  lemma {:induction false} ReachesInv(deferred: bool, from: State, steps: seq<Step>, s: State)
    requires Inv(from) && Reaches(deferred, from, steps, s)
    ensures Inv(s)
    decreases |steps|
  {
    if steps != [] {
      ReachesInv(deferred, Next(deferred, from, steps[0]), steps[1..], s);
    }
  }

  /** Whenever no pass runs, every request so far was served by a pass that began after it and
      ended, if and only if the last pass was not cancelled. */
  lemma ServedExactlyUnlessCancelled(deferred: bool, steps: seq<Step>, s: State)
    requires Reaches(deferred, FRESH, steps, s) && s.phase.Idle?
    ensures s.covered == s.asked <==> !s.cut
  {
    ReachesInv(deferred, FRESH, steps, s);
  }

  /** However requests and passes interleave there are never more passes than requests, and a
      running pass goes round again exactly when a request came after it began. */
  lemma PassesAreCoalesced(deferred: bool, steps: seq<Step>, s: State)
    requires Reaches(deferred, FRESH, steps, s)
    ensures s.passes <= s.asked
    ensures s.phase.Passing? ==>
              (Next(deferred, s, PassEnds).phase.Passing? <==> s.phase.base < s.asked)
  {
    ReachesInv(deferred, FRESH, steps, s);
  }

  /** One pass at a time: a request while a pass runs or is about to leaves it alone and is noted; at
      rest a request begins a pass, at once or in a task. */
  lemma RequestsWaitTheirTurn(deferred: bool, s: State)
    ensures var s' := Next(deferred, s, Request);
            && s'.asked == s.asked + 1 && s'.covered == s.covered
            && (!s.phase.Idle? ==> s'.phase == s.phase && s'.passes == s.passes && s'.dirty)
            && (s.phase.Idle? ==>
                  if deferred then s'.phase.Scheduled? && s'.passes == s.passes && s'.dirty
                  else s'.phase == Passing(s'.asked) && s'.passes == s.passes + 1 && !s'.dirty)
  {
  }

  /** Once requests stop, two more passes at most bring the refresher to rest, all served. */
  lemma SettlesInTwo(deferred: bool, steps: seq<Step>, s: State)
    requires Reaches(deferred, FRESH, steps, s) && s.phase.Passing?
    ensures var one := Next(deferred, s, PassEnds);
            var last := if one.phase.Idle? then one else Next(deferred, one, PassEnds);
            last.phase.Idle? && last.covered == last.asked == s.asked
  {
    ReachesInv(deferred, FRESH, steps, s);
  }

  /** One request and a cancellation, of the pass or of the task before it ran: the request is
      never served. */
  lemma CancelLosesARequest(deferred: bool) returns (s: State)
    ensures Reaches(deferred, FRESH, [Request, Cancel], s)
    ensures s.phase.Idle? && s.covered == 0 && s.asked == 1
  {
    var one := Next(deferred, FRESH, Request);
    s := Next(deferred, one, Cancel);
    assert [Request, Cancel][1..] == [Cancel] && [Cancel][1..] == [];
    assert Reaches(deferred, one, [Cancel], s);
  }

  /** A cancelled pass loses its requests until the next one, whose pass serves them too. */
  lemma NextPassServesLost(deferred: bool, steps: seq<Step>, s: State)
    requires Reaches(deferred, FRESH, steps, s) && s.phase.Idle?
    ensures var r := Next(deferred, s, Request);
            var p := if deferred then Next(deferred, r, TaskStarts) else r;
            p.phase.Passing? && Next(deferred, p, PassEnds).covered == s.asked + 1
  {
  }

  /** `refresh_roster`, cut at its one await. `locked` is `lock.locked()`. */
  class RosterRefresher {
    var rosterDirty: bool
    var locked: bool
    ghost var view: State

    ghost predicate Valid()
      reads this
    {
      rosterDirty == view.dirty && (locked <==> view.phase.Passing?) && !view.phase.Scheduled? && Inv(view)
    }

    constructor ()
      ensures Valid() && view == FRESH
    {
      rosterDirty, locked, view := false, false, FRESH;
    }

    /** Up to the pass; false when a running refresh will go round for this request. */
    method RefreshRoster() returns (begin: bool)
      requires Valid()
      modifies this
      ensures Valid() && view == Next(false, old(view), Request)
      ensures begin <==> old(view).phase.Idle?
    {
      rosterDirty := true;
      view := Next(false, view, Request);
      if locked {
        return false;
      }
      locked := true;
      rosterDirty := false;
      return true;
    }

    /** After a pass: once more if dirty, else release the lock. */
    method PassDone() returns (again: bool)
      requires Valid() && locked
      modifies this
      ensures Valid() && view == Next(false, old(view), PassEnds)
      ensures again <==> view.phase.Passing?
    {
      again := rosterDirty;
      view := Next(false, view, PassEnds);
      if rosterDirty {
        rosterDirty := false;
      } else {
        locked := false;
      }
    }
  }
}
