/** `session.py`: dropping revoked channels on received lines, skipped while the store's change
    stamp is the one of the last sweep, against a session that sweeps on every line. */
module RevocationSweep {
  import opened Text
  import opened AccessPolicy

  type Channel = string

  /** The viewer's rows, and the change stamp of the commit that wrote them. */
  datatype Store = Store(stamp: nat, user: Option<User>, grants: seq<Grant>)

  /** `parts` is history: each sweep's non-empty set of channels scheduled for PART. */
  datatype View = View(joined: set<Channel>, current: Channel, parts: seq<set<Channel>>)

  datatype Session = Session(view: View, swept: Option<nat>)

  predicate May(s: Store, c: Channel, op: Op) { Allowed(s.user, s.grants, c, op) }

  /** `_enforce_revocations` */
  function Enforce(s: Store, v: View): View {
    var gone := set c | c in v.joined && !May(s, c, ListOp);
    View(v.joined - gone,
         if v.current != "" && !May(s, v.current, ReadOp) then "" else v.current,
         if gone == {} then v.parts else v.parts + [gone])
  }

  /** `dispatch` up to the line itself: sweep unless the stamp read is the one last swept.
      An unreadable stamp is None, and always sweeps. */
  function Dispatch(s: Store, x: Session, stamp: Option<nat>): Session {
    if stamp != None && stamp == x.swept then x else Session(Enforce(s, x.view), stamp)
  }

  datatype Step =
    | Commit(user: Option<User>, grants: seq<Grant>)
    | Line(stampReadable: bool)
    | Render
    | Check(c: Channel)
    | Joined(c: Channel)
    | Part(c: Channel)
    | Switch(c: Channel)

  /** `checked` holds the joins whose access check passed and whose JOIN is being sent. */
  datatype System = System(store: Store, session: Session, checked: set<Channel>)

  function Join(v: View, c: Channel): View { View(v.joined + {c}, c, v.parts) }

  function Leave(v: View, c: Channel): View {
    View(v.joined - {c}, if v.current == c then "" else v.current, v.parts)
  }

  function Next(sys: System, step: Step, always: bool): System {
    var s, x := sys.store, sys.session;
    match step
    case Commit(user, grants) => sys.(store := Store(s.stamp + 1, user, grants))
    case Line(readable) =>
      if always then sys.(session := Session(Enforce(s, x.view), x.swept))
      else sys.(session := Dispatch(s, x, if readable then Some(s.stamp) else None))
    case Render => sys.(session := x.(view := Enforce(s, x.view)))
    case Check(c) => if May(s, c, ReadOp) then sys.(checked := sys.checked + {c}) else sys
    case Joined(c) =>
      if c in sys.checked
      then System(s, x.(view := Join(x.view, c)), sys.checked - {c}) else sys
    case Part(c) => sys.(session := x.(view := Leave(x.view, c)))
    case Switch(c) =>
      if c in x.view.joined && May(s, c, ReadOp) then sys.(session := x.(view := x.view.(current := c))) else sys
  }

  function Run(sys: System, steps: seq<Step>, always: bool): System
    decreases |steps|
  {
    if steps == [] then sys else Run(Next(sys, steps[0], always), steps[1..], always)
  }

  // ---- The skip changes nothing ----------------------------------------------------------------

  predicate Clean(s: Store, v: View) {
    && (forall c | c in v.joined :: May(s, c, ListOp))
    && (v.current != "" ==> May(s, v.current, ReadOp))
  }

  /** A stamp swept is never newer than the store, and if it is the store's own, a sweep now
      would find nothing. */
  ghost predicate Inv(sys: System) {
    && (sys.session.swept.Some? ==> sys.session.swept.value <= sys.store.stamp)
    && (sys.session.swept == Some(sys.store.stamp) ==> Clean(sys.store, sys.session.view))
  }

  lemma CleanSweepIsNothing(s: Store, v: View)
    requires Clean(s, v)
    ensures Enforce(s, v) == v
  {
    assert (set c | c in v.joined && !May(s, c, ListOp)) == {};
  }

  lemma EnforceCleans(s: Store, v: View)
    ensures Clean(s, Enforce(s, v))
  {
  }

  /** A join lands safely: still allowed, or a sweep is due on the next line anyway. */
  predicate LandsSafely(sys: System, c: Channel) {
    May(sys.store, c, ReadOp) || sys.session.swept != Some(sys.store.stamp)
  }

  predicate SafeStep(sys: System, step: Step) {
    step.Joined? && step.c in sys.checked ==> LandsSafely(sys, step.c)
  }

  /** Every completed join of the run lands safely. */
  ghost predicate SafeRun(sys: System, steps: seq<Step>)
    decreases |steps|
  {
    steps == [] || (SafeStep(sys, steps[0]) && SafeRun(Next(sys, steps[0], false), steps[1..]))
  }

  lemma NextKeepsInv(sys: System, step: Step)
    requires Inv(sys) && SafeStep(sys, step)
    ensures Inv(Next(sys, step, false))
  {
    var s, v := sys.store, sys.session.view;
    EnforceCleans(s, v);
    if step.Joined? || step.Switch? {
      OpsAreOrdered(s.user, s.grants, step.c);
    }
  }

  /** The same store, joins under way and view; only the mark of the last sweep may differ. */
  predicate Same(skip: System, always: System) {
    skip.store == always.store && skip.checked == always.checked && skip.session.view == always.session.view
  }

  lemma NextStaysSame(skip: System, always: System, step: Step)
    requires Inv(skip) && Same(skip, always)
    ensures Same(Next(skip, step, false), Next(always, step, true))
  {
    if step.Line? && step.stampReadable && skip.session.swept == Some(skip.store.stamp) {
      CleanSweepIsNothing(skip.store, skip.session.view);
    }
  }

  lemma {:induction false} RunsStaySame(skip: System, always: System, steps: seq<Step>)
    requires Inv(skip) && Same(skip, always) && SafeRun(skip, steps)
    ensures Same(Run(skip, steps, false), Run(always, steps, true))
    decreases |steps|
  {
    if steps != [] {
      NextKeepsInv(skip, steps[0]);
      NextStaysSame(skip, always, steps[0]);
      RunsStaySame(Next(skip, steps[0], false), Next(always, steps[0], true), steps[1..]);
    }
  }

  function Fresh(store: Store): System { System(store, Session(View({}, "", []), None), {}) }

  /** After every run whose joins land safely, skipping sweeps leaves the same joined channels,
      the same current channel and the same scheduled PARTs as sweeping on every line. */
  lemma SkippingIsInvisible(store: Store, steps: seq<Step>)
    requires SafeRun(Fresh(store), steps)
    ensures Same(Run(Fresh(store), steps, false), Run(Fresh(store), steps, true))
  {
    RunsStaySame(Fresh(store), Fresh(store), steps);
  }

  // ---- What a line leaves ---------------------------------------------------------------------------

  /** What a sweep is to leave: the channels the viewer may list, the current one if it may be read,
      and one PART of exactly the others, if there are any. */
  ghost predicate Swept(s: Store, before: View, after: View) {
    && (forall c :: c in after.joined <==> c in before.joined && ByPolicy(s.user, s.grants, c, ListOp))
    && after.current == (if ByPolicy(s.user, s.grants, before.current, ReadOp) then before.current else "")
    && (if after.joined == before.joined then after.parts == before.parts
        else after.parts == before.parts + [before.joined - after.joined])
  }

  lemma EnforceSweeps(s: Store, v: View)
    ensures Swept(s, v, Enforce(s, v))
  {
    forall c, op: Op
      ensures May(s, c, op) <==> ByPolicy(s.user, s.grants, c, op)
    {
      AllowedExactly(s.user, s.grants, c, op);
    }
    hide ByPolicy, Allowed;
    var gone := set c | c in v.joined && !May(s, c, ListOp);
    if gone == {} {
      assert v.joined - gone == v.joined;
    } else {
      var c :| c in gone;
      assert c !in Enforce(s, v).joined;
      assert v.joined - Enforce(s, v).joined == gone;
    }
  }

  lemma {:induction false} RunKeepsInv(sys: System, steps: seq<Step>)
    requires Inv(sys) && SafeRun(sys, steps)
    ensures Inv(Run(sys, steps, false))
    decreases |steps|
  {
    if steps != [] {
      NextKeepsInv(sys, steps[0]);
      RunKeepsInv(Next(sys, steps[0], false), steps[1..]);
    }
  }

  /** After every run whose joins land safely, a line, swept or skipped, and a rendered page leave
      exactly the channels the viewer may still list and schedule exactly the PARTs of the others. */
  lemma EveryLineSweeps(store: Store, steps: seq<Step>, readable: bool)
    requires SafeRun(Fresh(store), steps)
    ensures var sys := Run(Fresh(store), steps, false);
            && Swept(sys.store, sys.session.view, Next(sys, Line(readable), false).session.view)
            && Swept(sys.store, sys.session.view, Next(sys, Render, false).session.view)
  {
    RunKeepsInv(Fresh(store), steps);
    var sys := Run(Fresh(store), steps, false);
    EnforceSweeps(sys.store, sys.session.view);
    hide SafeRun, Run, Swept;
    if readable && sys.session.swept == Some(sys.store.stamp) {
      CleanSweepIsNothing(sys.store, sys.session.view);
    }
  }

  // ---- The current channel ----------------------------------------------------------------------------

  predicate CurrentIsJoined(v: View) { v.current == "" || v.current in v.joined }

  lemma NextKeepsCurrent(sys: System, step: Step, always: bool)
    requires CurrentIsJoined(sys.session.view)
    ensures CurrentIsJoined(Next(sys, step, always).session.view)
  {
    OpsAreOrdered(sys.store.user, sys.store.grants, sys.session.view.current);
    hide Allowed;
  }

  /** In every run, racing joins included, the current channel is joined, or there is none. */
  lemma {:induction false} CurrentStaysJoined(sys: System, steps: seq<Step>, always: bool)
    requires CurrentIsJoined(sys.session.view)
    ensures CurrentIsJoined(Run(sys, steps, always).session.view)
    decreases |steps|
  {
    if steps != [] {
      NextKeepsCurrent(sys, steps[0], always);
      CurrentStaysJoined(Next(sys, steps[0], always), steps[1..], always);
    }
  }

  /** What the commands do: parting drops that channel only and clears it as the current one; a checked
      join adds it and shows it; a switch shows a joined channel exactly if it may be read. */
  lemma CommandsExactly(sys: System, c: Channel, always: bool)
    ensures var v := sys.session.view;
            var parted := Next(sys, Part(c), always).session.view;
            var joined := Next(sys, Joined(c), always).session.view;
            var shown := Next(sys, Switch(c), always).session.view;
            && (forall d :: d in parted.joined <==> d in v.joined && d != c)
            && parted.current == (if v.current != c then v.current else "") && parted.parts == v.parts
            && (forall d :: d in joined.joined <==> d in v.joined || (d == c && c in sys.checked))
            && joined.current == (if c in sys.checked then c else v.current) && joined.parts == v.parts
            && shown.joined == v.joined && shown.parts == v.parts
            && shown.current ==
                 (if c in v.joined && ByPolicy(sys.store.user, sys.store.grants, c, ReadOp) then c else v.current)
            && (c in Next(sys, Check(c), always).checked
                <==> c in sys.checked || ByPolicy(sys.store.user, sys.store.grants, c, ReadOp))
  {
    AllowedExactly(sys.store.user, sys.store.grants, c, ReadOp);
    hide Allowed, ByPolicy;
  }

  // ---- Joins as one step, and joins that race -----------------------------------------------------

  /** A command with its join's check and completion together, as nothing runs between them. */
  datatype Command = JoinNow(c: Channel) | Other(step: Step)

  predicate Plain(cmd: Command) { cmd.Other? ==> !cmd.step.Check? && !cmd.step.Joined? }

  function Expand(cmds: seq<Command>): seq<Step> {
    if cmds == [] then []
    else if cmds[0].JoinNow? then [Check(cmds[0].c), Joined(cmds[0].c)] + Expand(cmds[1..])
    else [cmds[0].step] + Expand(cmds[1..])
  }

  lemma {:induction false} AtomicJoinsAreSafe(sys: System, cmds: seq<Command>)
    requires sys.checked == {} && forall i | 0 <= i < |cmds| :: Plain(cmds[i])
    ensures SafeRun(sys, Expand(cmds))
    decreases |cmds|
  {
    if cmds != [] {
      var rest := Expand(cmds[1..]);
      if cmds[0].JoinNow? {
        var c := cmds[0].c;
        var sys1 := Next(sys, Check(c), false);
        var sys2 := Next(sys1, Joined(c), false);
        assert sys2.checked == {};
        AtomicJoinsAreSafe(sys2, cmds[1..]);
        assert ([Joined(c)] + rest)[1..] == rest;
        assert SafeRun(sys1, [Joined(c)] + rest);
        assert Expand(cmds)[1..] == [Joined(c)] + rest;
      } else {
        assert Plain(cmds[0]);
        assert Next(sys, cmds[0].step, false).checked == {};
        AtomicJoinsAreSafe(Next(sys, cmds[0].step, false), cmds[1..]);
        assert Expand(cmds)[1..] == rest;
      }
    }
  }

  /** With each join's check and completion taken as one step, skipping is always invisible. */
  lemma SkippingIsInvisibleForAtomicJoins(store: Store, cmds: seq<Command>)
    requires forall i | 0 <= i < |cmds| :: Plain(cmds[i])
    ensures Same(Run(Fresh(store), Expand(cmds), false), Run(Fresh(store), Expand(cmds), true))
  {
    AtomicJoinsAreSafe(Fresh(store), cmds);
    SkippingIsInvisible(store, Expand(cmds));
  }

  /** The condition on racing joins is exact: after the join completes and the next line
      arrives, the two sessions agree if and only if the join landed safely. */
  lemma JoinAgreesExactlyWhenSafe(skip: System, always: System, c: Channel)
    requires Inv(skip) && Same(skip, always) && c in skip.checked
    ensures var skip' := Next(Next(skip, Joined(c), false), Line(true), false);
            var always' := Next(Next(always, Joined(c), true), Line(true), true);
            Same(skip', always') <==> LandsSafely(skip, c)
  {
    NextStaysSame(skip, always, Joined(c));
    var skip1, always1 := Next(skip, Joined(c), false), Next(always, Joined(c), true);
    if LandsSafely(skip, c) {
      NextKeepsInv(skip, Joined(c));
      NextStaysSame(skip1, always1, Line(true));
    } else {
      OpsAreOrdered(skip.store.user, skip.store.grants, c);
      assert c in Next(skip1, Line(true), false).session.view.joined;
      assert c !in Next(always1, Line(true), true).session.view.joined;
    }
  }

  /** A step after which no sweep is due, and that does not part `c`. */
  predicate LeavesAlone(step: Step, c: Channel) {
    match step
    case Commit(_, _) => false
    case Line(readable) => readable
    case Render => false
    case Part(d) => d != c
    case _ => true
  }

  lemma {:induction false} StaysJoined(skip: System, c: Channel, later: seq<Step>)
    requires c in skip.session.view.joined && skip.session.swept == Some(skip.store.stamp)
    requires forall step | step in later :: LeavesAlone(step, c)
    ensures c in Run(skip, later, false).session.view.joined
    decreases |later|
  {
    if later != [] {
      assert LeavesAlone(later[0], c);
      StaysJoined(Next(skip, later[0], false), c, later[1..]);
    }
  }

  lemma {:induction false} IsDropped(always: System, c: Channel, later: seq<Step>)
    requires !May(always.store, c, ReadOp) && c !in always.checked
    requires Line(true) in later || c !in always.session.view.joined
    requires forall step | step in later :: LeavesAlone(step, c)
    ensures c !in Run(always, later, true).session.view.joined
    decreases |later|
  {
    if later != [] {
      assert LeavesAlone(later[0], c);
      OpsAreOrdered(always.store.user, always.store.grants, c);
      IsDropped(Next(always, later[0], true), c, later[1..]);
    }
  }

  /** A join that does not land safely: until the store changes again (or a line's stamp cannot be
      read, a page is rendered or the channel is parted) it survives any number of lines, while a
      session that sweeps on every line drops it on the first. */
  lemma UnsafeJoinSurvives(skip: System, always: System, c: Channel, later: seq<Step>)
    requires Same(skip, always) && c in skip.checked && !LandsSafely(skip, c)
    requires forall step | step in later :: LeavesAlone(step, c)
    ensures c in Run(skip, [Joined(c)] + later, false).session.view.joined
    ensures Line(true) in later ==> c !in Run(always, [Joined(c)] + later, true).session.view.joined
  {
    assert ([Joined(c)] + later)[1..] == later;
    StaysJoined(Next(skip, Joined(c), false), c, later);
    if Line(true) in later {
      IsDropped(Next(always, Joined(c), true), c, later);
    }
  }

  /** Such a join can come about: a revocation and a line between its check and its completion. */
  lemma RacingJoinSurvives(c: Channel, later: seq<Step>)
    requires c != "" && Line(true) in later && forall step | step in later :: LeavesAlone(step, c)
    ensures var steps := [Check(c), Commit(None, []), Line(true), Joined(c)] + later;
            var from := Fresh(Store(0, Some(User(true, true)), []));
            c in Run(from, steps, false).session.view.joined && c !in Run(from, steps, true).session.view.joined
  {
    var from := Fresh(Store(0, Some(User(true, true)), []));
    var steps := [Check(c), Commit(None, []), Line(true)] + ([Joined(c)] + later);
    assert steps == [Check(c), Commit(None, []), Line(true), Joined(c)] + later;
    var skip, always := AfterRace(from, c, false), AfterRace(from, c, true);
    RunThree(from, steps, false);
    RunThree(from, steps, true);
    assert steps[3..] == [Joined(c)] + later;
    UnsafeJoinSurvives(skip, always, c, later);
  }

  function AfterRace(sys: System, c: Channel, always: bool): System {
    Next(Next(Next(sys, Check(c), always), Commit(None, []), always), Line(true), always)
  }

  lemma RunThree(sys: System, steps: seq<Step>, always: bool)
    requires |steps| >= 3
    ensures Run(sys, steps, always)
         == Run(Next(Next(Next(sys, steps[0], always), steps[1], always), steps[2], always), steps[3..], always)
  {
    hide Next;
    var s1 := Next(sys, steps[0], always);
    var s2 := Next(s1, steps[1], always);
    var s3 := Next(s2, steps[2], always);
    assert Run(s2, steps[2..], always) == Run(s3, steps[3..], always) by { assert steps[2..][1..] == steps[3..]; }
    assert Run(s1, steps[1..], always) == Run(s2, steps[2..], always) by { assert steps[1..][1..] == steps[2..]; }
  }

  // ---- The session's fields ------------------------------------------------------------------------

  class LiveSession {
    var joinedChannels: set<Channel>
    var currentChannel: Channel
    var sweptStamp: Option<nat>
    ghost var parts: seq<set<Channel>>

    ghost function Fields(): Session
      reads this
    {
      Session(View(joinedChannels, currentChannel, parts), sweptStamp)
    }

    constructor ()
      ensures Fields() == Session(View({}, "", []), None)
    {
      joinedChannels, currentChannel, sweptStamp, parts := {}, "", None, [];
    }

    method EnforceRevocations(s: Store)
      modifies this
      ensures Fields() == Session(Enforce(s, old(Fields()).view), old(sweptStamp))
    {
      var gone := set c | c in joinedChannels && !May(s, c, ListOp);
      var left := gone;
      while left != {}
        invariant left <= gone && joinedChannels == old(joinedChannels) - (gone - left)
        invariant currentChannel == old(currentChannel) && sweptStamp == old(sweptStamp) && parts == old(parts)
        decreases left
      {
        var c :| c in left;
        joinedChannels := joinedChannels - {c};
        left := left - {c};
      }
      if gone != {} {
        parts := parts + [gone];
      }
      if currentChannel != "" && !May(s, currentChannel, ReadOp) {
        currentChannel := "";
      }
    }

    method DispatchLine(s: Store, stamp: Option<nat>)
      modifies this
      ensures Fields() == Dispatch(s, old(Fields()), stamp)
    {
      if stamp != None && stamp == sweptStamp {
        return;
      }
      sweptStamp := stamp;
      EnforceRevocations(s);
    }

    method PartChannel(c: Channel)
      modifies this
      ensures Fields() == Session(Leave(old(Fields()).view, c), old(sweptStamp))
    {
      joinedChannels := joinedChannels - {c};
      if currentChannel == c {
        currentChannel := "";
      }
    }
  }
}
