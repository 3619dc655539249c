/** From an alert to its notification: `RuleMonitor._assess_and_alert`, the optional verdict
    caller and the decider client's threads. */
module ThreatDelivery {
  import opened Text
  import V = VerdictCaller
  import D = DeciderClient

  /** How an alert was handed on: notified at once, or left to a submission's callback. */
  datatype Fate = AtOnce | ByCallback(g: nat)

  /** Why the decider could not even be asked: nothing, its thread not starting, or an
      exception before `submit`. */
  datatype Trouble = Smooth | SubmitFails | FailsEarly

  /** One run of `notify`: the window it tells of, and the verdict it carries. */
  datatype Notice = Notice(window: int, verdict: Option<D.Verdict>)

  /** All but the caller and the client are history: per alerted window its fate, per accepted
      submission its window, what was notified, and the steps of the client. */
  datatype State = State(
    caller: V.Caller,
    client: D.State,
    fates: map<int, Fate>,
    owner: map<nat, int>,
    notices: seq<Notice>,
    steps: seq<D.Step>)

  const INIT: State := State(V.Caller([], None), D.INIT, map[], map[], [], [])

  /** The verdicts that went out with the notices of window `w`. */
  function Told(notices: seq<Notice>, w: int): seq<Option<D.Verdict>> {
    if notices == [] then []
    else
      var last := notices[|notices| - 1];
      Told(notices[..|notices| - 1], w) + if last.window == w then [last.verdict] else []
  }

  function NotifyNow(s: State, w: int): State {
    s.(fates := s.fates[w := AtOnce], notices := s.notices + [Notice(w, None)])
  }

  /** `submit` raised before its thread started. */
  function Raised(s: State, now: int, w: int): State
    requires !s.client.flags.inFlight
  {
    s.(caller := V.Assess(s.caller, now, w, V.Raised), client := D.Next(s.client, D.SubmitRaises),
       steps := s.steps + [D.SubmitRaises])
  }

  function Submitted(s: State, now: int, w: int): State {
    var g := s.client.flags.generation + 1;
    State(V.Assess(s.caller, now, w, V.Started), D.Next(s.client, D.Submit),
          s.fates[w := ByCallback(g)], s.owner[g := w], s.notices, s.steps + [D.Submit])
  }

  /** `_assess_and_alert` for window `w`. */
  function Alert(s: State, hasDecider: bool, now: int, w: int, trouble: Trouble): State {
    if !hasDecider || trouble.FailsEarly? then NotifyNow(s, w)
    else if !V.Submits(s.caller, now, w) then
      NotifyNow(s.(caller := V.Assess(s.caller, now, w, V.Declined)), w)
    else if s.client.flags.inFlight then
      NotifyNow(s.(caller := V.Assess(s.caller, now, w, V.Declined)), w)
    else if trouble.SubmitFails? then
      NotifyNow(Raised(s, now, w), w)
    else Submitted(s, now, w)
  }

  /** A step of the client's threads; a delivery runs the callback, which notifies with the verdict. */
  function Thread(s: State, step: D.Step): State
    requires D.Enabled(s.client, step) && !step.Submit? && !step.SubmitRaises?
  {
    var verdicts := D.Delivery(s.client, step);
    s.(client := D.Next(s.client, step), steps := s.steps + [step],
       notices := if verdicts != [] && step.g in s.owner
                  then s.notices + [Notice(s.owner[step.g], verdicts[0])] else s.notices)
  }

  ghost predicate Linked(s: State) {
    && s.owner.Keys == s.client.jobs.Keys
    && (forall g | g in s.owner :: s.owner[g] in s.fates && s.fates[s.owner[g]] == ByCallback(g))
    && (forall w | w in s.fates && s.fates[w].ByCallback? ::
          s.fates[w].g in s.owner && s.owner[s.fates[w].g] == w)
  }

  /** A window's notices are the one made at once, or the calls of its submission's callback. */
  ghost predicate ToldOk(s: State, w: int)
    requires Linked(s)
  {
    Told(s.notices, w) ==
      if w !in s.fates then []
      else if s.fates[w].AtOnce? then [None]
      else s.client.jobs[s.fates[w].g].calls
  }

  ghost predicate Inv(s: State) {
    D.Inv(s.client) && s.client == D.After(s.steps) && Linked(s) && forall w :: ToldOk(s, w)
  }

  lemma ToldSnoc(notices: seq<Notice>, n: Notice, w: int)
    ensures Told(notices + [n], w) == Told(notices, w) + if n.window == w then [n.verdict] else []
  {
    assert (notices + [n])[..|notices|] == notices;
  }

  lemma StepsSnoc(steps: seq<D.Step>, step: D.Step)
    requires D.Enabled(D.After(steps), step)
    ensures D.After(steps + [step]) == D.Next(D.After(steps), step)
  {
    hide D.Next, D.Enabled;
    assert (steps + [step])[..|steps|] == steps;
  }

  lemma NotifyNowKeepsInv(s: State, w: int)
    requires Inv(s) && w !in s.fates
    ensures Inv(NotifyNow(s, w)) && NotifyNow(s, w).fates.Keys == s.fates.Keys + {w}
  {
    hide D.Inv, D.After, Told;
    var s' := NotifyNow(s, w);
    assert Linked(s');
    forall x
      ensures ToldOk(s', x)
    {
      assert ToldOk(s, x);
      ToldSnoc(s.notices, Notice(w, None), x);
    }
  }

  lemma NewGenerationIsNew(c: D.State)
    requires D.Inv(c)
    ensures c.flags.generation + 1 !in c.jobs
  {
    forall g | g in c.jobs
      ensures g != c.flags.generation + 1
    {
      assert D.JobOk(c.flags, g, c.jobs[g]);
    }
  }

  lemma SubmittedKeepsInv(s: State, now: int, w: int)
    requires Inv(s) && w !in s.fates && !s.client.flags.inFlight
    ensures var s' := Submitted(s, now, w); Inv(s') && s'.fates.Keys == s.fates.Keys + {w}
  {
    hide D.JobOk, D.Inv, D.After, Told, V.Assess;
    D.StepKeepsInv(s.client, D.Submit);
    StepsSnoc(s.steps, D.Submit);
    NewGenerationIsNew(s.client);
    SubmittedIsLinked(s, now, w);
    forall x
      ensures ToldOk(Submitted(s, now, w), x)
    {
      SubmittedTellsNothing(s, now, w, x);
    }
    hide ToldOk, Linked, D.Next;
  }

  lemma SubmittedTellsNothing(s: State, now: int, w: int, x: int)
    requires Linked(s) && ToldOk(s, x) && w !in s.fates && !s.client.flags.inFlight
    requires s.client.flags.generation + 1 !in s.client.jobs && Linked(Submitted(s, now, w))
    ensures ToldOk(Submitted(s, now, w), x)
  {
    hide Told, V.Assess;
  }

  lemma SubmittedIsLinked(s: State, now: int, w: int)
    requires Linked(s) && w !in s.fates && !s.client.flags.inFlight
    requires s.client.flags.generation + 1 !in s.client.jobs
    ensures Linked(Submitted(s, now, w))
  {
    hide V.Assess;
  }

  lemma AlertKeepsInv(s: State, hasDecider: bool, now: int, w: int, trouble: Trouble)
    requires Inv(s) && w !in s.fates
    ensures Inv(Alert(s, hasDecider, now, w, trouble))
    ensures Alert(s, hasDecider, now, w, trouble).fates.Keys == s.fates.Keys + {w}
  {
    hide D.JobOk, V.Assess, V.Submits, NotifyNow, Submitted, Raised, Inv, D.Next;
    if !hasDecider || trouble.FailsEarly? {
      NotifyNowKeepsInv(s, w);
    } else if !V.Submits(s.caller, now, w) || s.client.flags.inFlight {
      OtherCallerKeepsInv(s, V.Assess(s.caller, now, w, V.Declined));
      NotifyNowKeepsInv(s.(caller := V.Assess(s.caller, now, w, V.Declined)), w);
    } else if trouble.SubmitFails? {
      RaisedKeepsInv(s, now, w);
      NotifyNowKeepsInv(Raised(s, now, w), w);
    } else {
      SubmittedKeepsInv(s, now, w);
    }
  }

  /** Nothing depends on the caller's caps. */
  lemma OtherCallerKeepsInv(s: State, caller: V.Caller)
    requires Inv(s)
    ensures Inv(s.(caller := caller))
  {
    hide D.Inv, D.After, Told;
    var s' := s.(caller := caller);
    assert Linked(s');
    forall x
      ensures ToldOk(s', x)
    {
      assert ToldOk(s, x);
    }
  }

  lemma RaisedKeepsInv(s: State, now: int, w: int)
    requires Inv(s) && !s.client.flags.inFlight
    ensures Inv(Raised(s, now, w)) && Raised(s, now, w).fates == s.fates
  {
    D.StepKeepsInv(s.client, D.SubmitRaises);
    StepsSnoc(s.steps, D.SubmitRaises);
    hide D.Inv, D.After, Told, V.Assess;
    var s' := Raised(s, now, w);
    assert Linked(s');
    forall x
      ensures ToldOk(s', x)
    {
      assert ToldOk(s, x);
    }
  }

  lemma ThreadKeepsInv(s: State, step: D.Step)
    requires Inv(s) && D.Enabled(s.client, step) && !step.Submit? && !step.SubmitRaises?
    ensures Inv(Thread(s, step)) && Thread(s, step).fates == s.fates
  {
    D.StepKeepsInv(s.client, step);
    StepsSnoc(s.steps, step);
    D.ThreadStepCalls(s.client, step, step.g);
    hide D.JobOk, D.Next, D.Enabled, D.Inv, D.After, Told;
    var s' := Thread(s, step);
    assert Linked(s');
    forall w
      ensures ToldOk(s', w)
    {
      ThreadKeepsTold(s, step, w);
    }
  }

  lemma ThreadKeepsTold(s: State, step: D.Step, w: int)
    requires Inv(s) && D.Enabled(s.client, step) && !step.Submit? && !step.SubmitRaises?
    requires Linked(Thread(s, step))
    ensures ToldOk(Thread(s, step), w)
  {
    assert ToldOk(s, w);
    D.ThreadStepCalls(s.client, step, step.g);
    var verdicts := D.Delivery(s.client, step);
    assert |verdicts| <= 1;
    hide D.Next, D.Enabled, D.Inv, D.After, D.Delivery, Told;
    if verdicts != [] {
      assert verdicts == [verdicts[0]];
      ToldSnoc(s.notices, Notice(s.owner[step.g], verdicts[0]), w);
    }
    if w in s.fates && s.fates[w].ByCallback? {
      D.ThreadStepCalls(s.client, step, s.fates[w].g);
    }
  }

  /** The alert's submission, if it has one, is over: worker and timer have ended. */
  predicate Settled(s: State, w: int)
    requires w in s.fates && (s.fates[w].ByCallback? ==> s.fates[w].g in s.client.jobs)
  {
    s.fates[w].ByCallback? ==>
      var j := s.client.jobs[s.fates[w].g];
      (j.worker.Ended? || j.worker.Died?) && D.TimerOver(j.timer)
  }

  predicate TimerNeverStarted(s: State, w: int)
    requires w in s.fates && (s.fates[w].ByCallback? ==> s.fates[w].g in s.client.jobs)
  {
    s.fates[w].ByCallback? && s.client.jobs[s.fates[w].g].worker.Died?
  }

  /** A notice made at once carries no verdict; one made by the callback carries what the poster gave,
      or none if the timer delivered. */
  predicate RightVerdict(s: State, w: int)
    requires w in s.fates
  {
    && (s.fates[w].AtOnce? ==> Told(s.notices, w) == [None])
    && (s.fates[w].ByCallback? && Told(s.notices, w) != [] ==>
          var g := s.fates[w].g;
          if D.TookEffect(s.steps, D.TimerDelivers(g)) then Told(s.notices, w) == [None]
          else D.Given(s.steps, g).Some? && Told(s.notices, w) == [D.Given(s.steps, g).value])
  }

  /** Each alert leads to at most one notification, with the right verdict, and once its threads have
      ended to exactly one, unless its timer thread could not be started. */
  lemma NotifiedExactlyOnce(s: State, w: int)
    requires Inv(s) && w in s.fates
    ensures |Told(s.notices, w)| <= 1 && RightVerdict(s, w)
    ensures Settled(s, w) ==> (|Told(s.notices, w)| == 1 <==> !TimerNeverStarted(s, w))
  {
    assert ToldOk(s, w);
    hide Told, D.After, D.TookEffect, D.Given;
    if s.fates[w].ByCallback? {
      D.CallbackExactlyOnce(s.client, s.steps, s.fates[w].g);
    }
  }

  /** The decider is asked about a new alert exactly when there is one that can be asked: its threads
      start, the window is newer than those before, the day's calls are not used up and no call is in
      flight. Otherwise the notification goes out at once. */
  lemma AskedExactlyWhen(s: State, hasDecider: bool, now: int, w: int, trouble: Trouble)
    requires Inv(s) && w !in s.fates
    ensures var s' := Alert(s, hasDecider, now, w, trouble);
            var asked := hasDecider && trouble == Smooth && V.Submits(s.caller, now, w) && !s.client.flags.inFlight;
            && w in s'.fates && (if asked then s'.fates[w].ByCallback? else s'.fates[w].AtOnce?)
            && Told(s'.notices, w) == (if asked then [] else [None])
            && (asked ==> s'.fates[w].g in s'.client.jobs && s'.client.jobs[s'.fates[w].g].worker.Spawned?)
            && (!asked ==> s'.client.jobs == s.client.jobs)
  {
    NotToldYet(s, w);
    hide Inv, Alert, Told, V.Submits, V.Assess;
    if hasDecider && trouble == Smooth && V.Submits(s.caller, now, w) && !s.client.flags.inFlight {
      AskedBySubmission(s, now, w);
    } else {
      AtOnceOtherwise(s, hasDecider, now, w, trouble);
      ToldSnoc(s.notices, Notice(w, None), w);
    }
  }

  lemma NotToldYet(s: State, w: int)
    requires Inv(s) && w !in s.fates
    ensures Told(s.notices, w) == []
  {
    assert ToldOk(s, w);
  }

  lemma AskedBySubmission(s: State, now: int, w: int)
    requires V.Submits(s.caller, now, w) && !s.client.flags.inFlight
    ensures var s' := Alert(s, true, now, w, Smooth);
            && w in s'.fates && s'.fates[w].ByCallback? && s'.notices == s.notices
            && s'.fates[w].g in s'.client.jobs && s'.client.jobs[s'.fates[w].g].worker.Spawned?
  {
    hide V.Submits, V.Assess;
  }

  lemma AtOnceOtherwise(s: State, hasDecider: bool, now: int, w: int, trouble: Trouble)
    requires !(hasDecider && trouble == Smooth && V.Submits(s.caller, now, w) && !s.client.flags.inFlight)
    ensures var s' := Alert(s, hasDecider, now, w, trouble);
            && w in s'.fates && s'.fates[w].AtOnce? && s'.notices == s.notices + [Notice(w, None)]
            && s'.client.jobs == s.client.jobs
  {
    hide V.Submits, V.Assess;
  }
}
