/** `decider.py`, `DeciderClient`: one call in flight, a worker thread and a timer thread that
    race to deliver its callback. Each locked block, thread start and callback is one step. */
module DeciderClient {
  import opened Text

  datatype Verdict = Verdict(choice: string)

  // ---- The three locked blocks -------------------------------------------------------------

  datatype Flags = Flags(inFlight: bool, callbackDone: bool, generation: nat)

  /** `submit`: the new flags, and the generation started, or none when refused. */
  function SubmitBlock(f: Flags): (Flags, Option<nat>) {
    if f.inFlight then (f, None) else (Flags(true, false, f.generation + 1), Some(f.generation + 1))
  }

  /** The `finally` block of `_run`: the new flags, and whether the worker delivers. */
  function FinishBlock(f: Flags, generation: nat): (Flags, bool) {
    var deliver := generation == f.generation && !f.callbackDone;
    (Flags(false, f.callbackDone || deliver, f.generation), deliver)
  }

  /** `_time_out`: the new flags, and whether the timer delivers. */
  function TimeOutBlock(f: Flags, generation: nat): (Flags, bool) {
    if generation != f.generation || f.callbackDone then (f, false)
    else (f.(callbackDone := true), true)
  }

  class Client {
    var inFlight: bool
    var callbackDone: bool
    var generation: nat

    function Fields(): Flags
      reads this
    {
      Flags(inFlight, callbackDone, generation)
    }

    constructor ()
      ensures Fields() == Flags(false, false, 0)
    {
      inFlight, callbackDone, generation := false, false, 0;
    }

    method Submit() returns (started: Option<nat>)
      modifies this
      ensures (Fields(), started) == SubmitBlock(old(Fields()))
    {
      if inFlight {
        return None;
      }
      inFlight := true;
      callbackDone := false;
      generation := generation + 1;
      started := Some(generation);
    }

    method Finish(mine: nat) returns (deliver: bool)
      modifies this
      ensures (Fields(), deliver) == FinishBlock(old(Fields()), mine)
    {
      deliver := false;
      inFlight := false;
      if mine == generation && !callbackDone {
        callbackDone := true;
        deliver := true;
      }
    }

    method TimeOut(mine: nat) returns (deliver: bool)
      modifies this
      ensures (Fields(), deliver) == TimeOutBlock(old(Fields()), mine)
    {
      if mine != generation || callbackDone {
        return false;
      }
      callbackDone := true;
      deliver := true;
    }
  }

  // ---- All threads -------------------------------------------------------------------------

  /** `Died`: the timer thread could not be started, so the worker ended before its `try`. */
  datatype Worker = Spawned | Posting | Finishing(v: Option<Verdict>) | Delivering(v: Option<Verdict>) | Ended | Died

  /** A timer past its wait may still fire after `cancel`: `Due` is that window. */
  datatype Timer = Unstarted | Armed(cancelled: bool) | Due | Firing | Gone

  /** One accepted submission: its threads, what the poster gave, and its callback's calls. */
  datatype Job = Job(worker: Worker, timer: Timer, result: Option<Option<Verdict>>, calls: seq<Option<Verdict>>)

  datatype State = State(flags: Flags, jobs: map<nat, Job>)

  datatype Step =
    | Submit
    | SubmitRaises
    | StartTimer(g: nat)
    | TimerStartRaises(g: nat)
    | PosterEnds(g: nat, v: Option<Verdict>)
    | WorkerLocks(g: nat)
    | WorkerDelivers(g: nat)
    | TimerWaitEnds(g: nat)
    | TimerLocks(g: nat)
    | TimerDelivers(g: nat)

  const INIT: State := State(Flags(false, false, 0), map[])

  predicate Enabled(s: State, step: Step) {
    match step
    case Submit => true
    case SubmitRaises => !s.flags.inFlight
    case StartTimer(g) => g in s.jobs && s.jobs[g].worker.Spawned?
    case TimerStartRaises(g) => g in s.jobs && s.jobs[g].worker.Spawned?
    case PosterEnds(g, _) => g in s.jobs && s.jobs[g].worker.Posting?
    case WorkerLocks(g) => g in s.jobs && s.jobs[g].worker.Finishing?
    case WorkerDelivers(g) => g in s.jobs && s.jobs[g].worker.Delivering?
    case TimerWaitEnds(g) => g in s.jobs && s.jobs[g].timer.Armed?
    case TimerLocks(g) => g in s.jobs && s.jobs[g].timer.Due?
    case TimerDelivers(g) => g in s.jobs && s.jobs[g].timer.Firing?
  }

  function Next(s: State, step: Step): State
    requires Enabled(s, step)
  {
    match step
    case Submit =>
      var (f, started) := SubmitBlock(s.flags);
      if started == None then s else State(f, s.jobs[started.value := Job(Spawned, Unstarted, None, [])])
    case SubmitRaises => State(SubmitBlock(s.flags).0, s.jobs)
    case StartTimer(g) => Set(s, g, s.jobs[g].(worker := Posting, timer := Armed(false)))
    case TimerStartRaises(g) => Set(s, g, s.jobs[g].(worker := Died))
    case PosterEnds(g, v) =>
      var j := s.jobs[g];
      Set(s, g, j.(worker := Finishing(v), result := Some(v), timer := if j.timer.Armed? then Armed(true) else j.timer))
    case WorkerLocks(g) =>
      var (f, deliver) := FinishBlock(s.flags, g);
      var v := s.jobs[g].worker.v;
      State(f, s.jobs[g := s.jobs[g].(worker := if deliver then Delivering(v) else Ended)])
    case WorkerDelivers(g) =>
      var j := s.jobs[g];
      Set(s, g, j.(worker := Ended, calls := j.calls + [j.worker.v]))
    case TimerWaitEnds(g) =>
      Set(s, g, s.jobs[g].(timer := if s.jobs[g].timer.cancelled then Gone else Due))
    case TimerLocks(g) =>
      var (f, deliver) := TimeOutBlock(s.flags, g);
      State(f, s.jobs[g := s.jobs[g].(timer := if deliver then Firing else Gone)])
    case TimerDelivers(g) =>
      var j := s.jobs[g];
      Set(s, g, j.(timer := Gone, calls := j.calls + [None]))
  }

  function Set(s: State, g: nat, j: Job): State { State(s.flags, s.jobs[g := j]) }

  // ---- The invariant ------------------------------------------------------------------------

  /** Callbacks run or already promised for this submission. */
  function Promised(j: Job): nat {
    |j.calls| + (if j.worker.Delivering? then 1 else 0) + (if j.timer.Firing? then 1 else 0)
  }

  /** Between its submission and its last locked block. */
  predicate Outstanding(j: Job) { j.worker.Spawned? || j.worker.Posting? || j.worker.Finishing? }

  ghost predicate JobOk(f: Flags, g: nat, j: Job) {
    && 1 <= g <= f.generation
    && (Outstanding(j) ==> g == f.generation && f.inFlight)
    && (j.worker.Died? ==> g == f.generation && f.inFlight && !f.callbackDone && Promised(j) == 0)
    && (j.worker.Spawned? ==> Promised(j) == 0)
    && (Outstanding(j) && (j.timer.Armed? || j.timer.Due?) ==> Promised(j) == 0)
    && (j.timer.Unstarted? <==> j.worker.Spawned? || j.worker.Died?)
    && (j.worker.Posting? && j.timer.Armed? ==> !j.timer.cancelled)
    && (j.worker.Posting? && (j.timer.Firing? || j.timer.Gone?) ==> Promised(j) == 1)
    && (g == f.generation ==> Promised(j) == if f.callbackDone then 1 else 0)
    && (g == f.generation && !f.callbackDone ==> Outstanding(j) || j.worker.Died?)
    && (g < f.generation ==> Promised(j) == 1)
    && (j.worker.Spawned? || j.worker.Posting? ==> j.result == None)
    && (j.worker.Finishing? || j.worker.Delivering? ==> j.result == Some(j.worker.v))
    && (forall i | 0 <= i < |j.calls| :: j.calls[i] == None || j.result == Some(j.calls[i]))
  }

  ghost predicate Inv(s: State) {
    forall g | g in s.jobs :: JobOk(s.flags, g, s.jobs[g])
  }

  lemma StepKeepsInv(s: State, step: Step)
    requires Inv(s) && Enabled(s, step)
    ensures Inv(Next(s, step))
  {
    var s' := Next(s, step);
    forall g | g in s'.jobs
      ensures JobOk(s'.flags, g, s'.jobs[g])
    {
      if g in s.jobs {
        StepKeepsJob(s, step, g);
      }
    }
  }

  lemma StepKeepsJob(s: State, step: Step, g: nat)
    requires Inv(s) && Enabled(s, step) && g in s.jobs
    ensures JobOk(Next(s, step).flags, g, Next(s, step).jobs[g])
  {
    assert JobOk(s.flags, g, s.jobs[g]);
    if !step.Submit? && !step.SubmitRaises? {
      assert JobOk(s.flags, step.g, s.jobs[step.g]);
    }
    hide Inv;
  }

  /** What a step calls its callback with, if it does. */
  function Delivery(s: State, step: Step): seq<Option<Verdict>>
    requires Enabled(s, step)
  {
    match step
    case WorkerDelivers(g) => [s.jobs[g].worker.v]
    case TimerDelivers(_) => [None]
    case _ => []
  }

  /** Only a delivery runs a callback, once, and no thread step adds or drops a submission. */
  lemma ThreadStepCalls(s: State, step: Step, g: nat)
    requires Enabled(s, step) && !step.Submit? && !step.SubmitRaises?
    ensures step.g in s.jobs && Next(s, step).jobs.Keys == s.jobs.Keys
    ensures g in s.jobs ==>
              Next(s, step).jobs[g].calls == s.jobs[g].calls + if g == step.g then Delivery(s, step) else []
  {
  }

  /** The state after an interleaving; a step that is not enabled does not happen. */
  function After(steps: seq<Step>): State {
    if steps == [] then INIT
    else
      var before, step := After(steps[..|steps| - 1]), steps[|steps| - 1];
      if Enabled(before, step) then Next(before, step) else before
  }

  lemma {:induction false} AfterInv(steps: seq<Step>)
    ensures Inv(After(steps))
  {
    if steps != [] {
      var before, step := After(steps[..|steps| - 1]), steps[|steps| - 1];
      AfterInv(steps[..|steps| - 1]);
      if Enabled(before, step) {
        StepKeepsInv(before, step);
      }
    }
  }

  // ---- What every interleaving guarantees -----------------------------------------------------

  predicate TimerOver(t: Timer) { t.Unstarted? || t.Gone? || (t.Armed? && t.cancelled) }

  /** At most one call is outstanding, and only the newest. */
  lemma OneInFlight(s: State, steps: seq<Step>)
    requires s == After(steps)
    ensures forall g, g' | g in s.jobs && g' in s.jobs && Outstanding(s.jobs[g]) && Outstanding(s.jobs[g']) :: g == g'
    ensures (exists g | g in s.jobs :: Outstanding(s.jobs[g])) ==> s.flags.inFlight
  {
    AfterInv(steps);
  }

  /** The step took effect somewhere in the run. */
  predicate TookEffect(steps: seq<Step>, step: Step) {
    steps != [] &&
      var before, last := steps[..|steps| - 1], steps[|steps| - 1];
      TookEffect(before, step) || (last == step && Enabled(After(before), step))
  }

  /** What the poster of submission `g` gave, if it ended in this run. */
  function Given(steps: seq<Step>, g: nat): Option<Option<Verdict>> {
    if steps == [] then None
    else
      var before, last := steps[..|steps| - 1], steps[|steps| - 1];
      if last.PosterEnds? && last.g == g && Enabled(After(before), last) then Some(last.v) else Given(before, g)
  }

  /** What the callback of submission `g` ought to have been called with, from the steps alone. */
  function Owed(steps: seq<Step>, g: nat): seq<Option<Verdict>> {
    if TookEffect(steps, TimerDelivers(g)) then [None]
    else if TookEffect(steps, WorkerDelivers(g)) && Given(steps, g).Some? then [Given(steps, g).value]
    else []
  }

  /** What a job's fields say of the run. */
  predicate Recorded(s: State, steps: seq<Step>, g: nat) {
    if g in s.jobs then
      && s.jobs[g].result == Given(steps, g) && s.jobs[g].calls == Owed(steps, g)
      && (TookEffect(steps, WorkerDelivers(g)) ==> s.jobs[g].result.Some? && s.jobs[g].worker.Ended?)
      && (TookEffect(steps, TimerDelivers(g)) ==> s.jobs[g].timer.Gone?)
    else
      !TookEffect(steps, TimerDelivers(g)) && !TookEffect(steps, WorkerDelivers(g)) && Given(steps, g) == None
  }

  lemma OneMoreStep(steps: seq<Step>, step: Step, g: nat)
    ensures var all, s := steps + [step], After(steps);
            && After(all) == (if Enabled(s, step) then Next(s, step) else s)
            && (forall x :: TookEffect(all, x) <==> TookEffect(steps, x) || (x == step && Enabled(s, step)))
            && Given(all, g) ==
                 (if step.PosterEnds? && step.g == g && Enabled(s, step) then Some(step.v) else Given(steps, g))
  {
    hide Next, Enabled;
    assert (steps + [step])[..|steps|] == steps;
  }

  lemma StepRecords(s: State, steps: seq<Step>, step: Step, g: nat)
    requires s == After(steps) && Inv(s) && Recorded(s, steps, g) && Enabled(s, step)
    ensures Recorded(Next(s, step), steps + [step], g)
  {
    OneMoreStep(steps, step, g);
    hide TookEffect, Given, After;
    if g in s.jobs {
      assert JobOk(s.flags, g, s.jobs[g]);
      assert |s.jobs[g].calls| <= 1;
    }
  }

  lemma {:induction false} AfterRecorded(steps: seq<Step>, g: nat)
    ensures Recorded(After(steps), steps, g)
  {
    if steps != [] {
      var before, step := steps[..|steps| - 1], steps[|steps| - 1];
      AfterRecorded(before, g);
      AfterInv(before);
      assert steps == before + [step];
      OneMoreStep(before, step, g);
      hide Recorded, TookEffect, Given, Inv, Next;
      if Enabled(After(before), step) {
        StepRecords(After(before), before, step, g);
      } else {
        NothingRecorded(After(before), before, step, g);
      }
    }
  }

  lemma NothingRecorded(s: State, steps: seq<Step>, step: Step, g: nat)
    requires s == After(steps) && Recorded(s, steps, g) && !Enabled(s, step)
    ensures Recorded(s, steps + [step], g)
  {
    OneMoreStep(steps, step, g);
    hide TookEffect, Given, After, Enabled;
  }

  /** Each accepted submission's callback runs at most once, and by the time its worker and
      timer have ended exactly once, unless the timer thread could not be started: then the
      callback never runs. It runs with none if the timer delivered, and otherwise with what the
      poster gave. */
  lemma CallbackExactlyOnce(s: State, steps: seq<Step>, g: nat)
    requires s == After(steps) && g in s.jobs
    ensures |s.jobs[g].calls| <= 1
    ensures (s.jobs[g].worker.Ended? || s.jobs[g].worker.Died?) && TimerOver(s.jobs[g].timer) ==>
              (|s.jobs[g].calls| == 1 <==> !s.jobs[g].worker.Died?)
    ensures TookEffect(steps, TimerDelivers(g)) ==> s.jobs[g].calls == [None]
    ensures s.jobs[g].calls != [] && !TookEffect(steps, TimerDelivers(g)) ==>
              Given(steps, g).Some? && s.jobs[g].calls == [Given(steps, g).value]
  {
    AfterInv(steps);
    AfterRecorded(steps, g);
    assert JobOk(s.flags, g, s.jobs[g]);
    hide TookEffect, Given, After, Inv;
  }

  /** The poster gave `v` before the timer's wait was over: the worker is on its way to deliver it. */
  predicate InTime(s: State, g: nat, v: Option<Verdict>) {
    && g in s.jobs && (s.jobs[g].timer == Armed(true) || s.jobs[g].timer.Gone?)
    && match s.jobs[g].worker
       case Finishing(u) => u == v && s.jobs[g].calls == [] && s.flags == Flags(true, false, g)
       case Delivering(u) => u == v && s.jobs[g].calls == []
       case Ended => s.jobs[g].calls == [v]
       case _ => false
  }

  lemma StepKeepsInTime(s: State, step: Step, g: nat, v: Option<Verdict>)
    requires InTime(s, g, v) && Inv(s) && Enabled(s, step)
    ensures InTime(Next(s, step), g, v)
  {
    assert JobOk(s.flags, g, s.jobs[g]);
    if !step.Submit? && !step.SubmitRaises? && step.g != g {
      assert JobOk(s.flags, step.g, s.jobs[step.g]);
    }
  }

  lemma {:induction false} StaysInTime(steps: seq<Step>, more: seq<Step>, g: nat, v: Option<Verdict>)
    requires InTime(After(steps), g, v)
    ensures InTime(After(steps + more), g, v)
  {
    if more == [] {
      assert steps + more == steps;
    } else {
      var n := |more| - 1;
      StaysInTime(steps, more[..n], g, v);
      assert steps + more == steps + more[..n] + [more[n]];
      OneMoreStep(steps + more[..n], more[n], g);
      AfterInv(steps + more[..n]);
      hide InTime, Inv, Next, Enabled;
      if Enabled(After(steps + more[..n]), more[n]) {
        StepKeepsInTime(After(steps + more[..n]), more[n], g, v);
      }
    }
  }

  /** An answer that comes while the timer is still waiting is what the callback gets, whatever
      happens afterwards. */
  lemma AnswerInTimeIsDelivered(steps: seq<Step>, more: seq<Step>, g: nat, v: Option<Verdict>)
    requires var s := After(steps); Enabled(s, PosterEnds(g, v)) && s.jobs[g].timer.Armed?
    ensures var s := After(steps + [PosterEnds(g, v)] + more);
            && g in s.jobs && (s.jobs[g].calls == [] || s.jobs[g].calls == [v])
            && (s.jobs[g].worker.Ended? ==> s.jobs[g].calls == [v])
  {
    AfterInv(steps);
    assert JobOk(After(steps).flags, g, After(steps).jobs[g]);
    OneMoreStep(steps, PosterEnds(g, v), g);
    assert InTime(After(steps + [PosterEnds(g, v)]), g, v);
    StaysInTime(steps + [PosterEnds(g, v)], more, g, v);
  }

  /** While the poster has given nothing, the timer's wait can run out, and then the timer delivers, with
      none. */
  lemma SlowPosterTimesOut(s: State, steps: seq<Step>, g: nat)
    requires s == After(steps) && g in s.jobs && s.jobs[g].worker.Posting?
    ensures s.jobs[g].timer.Armed? ==>
              Enabled(s, TimerWaitEnds(g)) && Enabled(Next(s, TimerWaitEnds(g)), TimerLocks(g))
    ensures Enabled(s, TimerLocks(g)) ==>
              var s' := Next(s, TimerLocks(g));
              Enabled(s', TimerDelivers(g)) && Next(s', TimerDelivers(g)).jobs[g].calls == [None]
    ensures s.jobs[g].timer.Gone? ==> s.jobs[g].calls == [None]
  {
    AfterInv(steps);
    AfterRecorded(steps, g);
    assert JobOk(s.flags, g, s.jobs[g]);
    hide TookEffect, Given, After;
  }

  /** A timer of an earlier generation changes no flag and delivers nothing, so it never
      consumes a later submission's callback. */
  lemma StaleTimerIsHarmless(s: State, steps: seq<Step>, g: nat)
    requires s == After(steps) && Enabled(s, TimerLocks(g)) && g != s.flags.generation
    ensures Next(s, TimerLocks(g)) == Set(s, g, s.jobs[g].(timer := Gone))
    ensures |s.jobs[g].calls| + (if s.jobs[g].worker.Delivering? then 1 else 0) == 1
  {
    AfterInv(steps);
  }

  /** Once a timer thread could not be started, every later submission is refused. */
  lemma {:induction false} DeadWorkerBlocksClient(steps: seq<Step>, more: seq<Step>, g: nat)
    requires var s := After(steps); g in s.jobs && s.jobs[g].worker.Died?
    ensures var s := After(steps + more);
            && g in s.jobs && s.jobs[g].worker.Died? && s.jobs[g].calls == []
            && SubmitBlock(s.flags) == (s.flags, None)
  {
    AfterInv(steps + more);
    if more == [] {
      assert steps + more == steps;
    } else {
      var n := |more| - 1;
      DeadWorkerBlocksClient(steps, more[..n], g);
      assert (steps + more)[..|steps + more| - 1] == steps + more[..n];
    }
  }

  /** A run in which that happens: one submission whose timer thread fails to start. */
  lemma TimerStartCanFail()
    ensures var s := After([Submit, TimerStartRaises(1)]);
            1 in s.jobs && s.jobs[1].worker.Died? && s.jobs[1].calls == [] && SubmitBlock(s.flags) == (s.flags, None)
  {
    var one := [Submit];
    assert one[..0] == [] && [Submit, TimerStartRaises(1)][..1] == one;
    assert After(one) == State(Flags(true, false, 1), map[1 := Job(Spawned, Unstarted, None, [])]);
  }

  /** In flight for good, with nobody left to clear the flag. */
  predicate Stuck(s: State) {
    s.flags.inFlight && forall g | g in s.jobs :: !Outstanding(s.jobs[g])
  }

  lemma StuckStays(s: State, step: Step)
    requires Inv(s) && Stuck(s) && Enabled(s, step)
    ensures Stuck(Next(s, step))
  {
  }

  lemma {:induction false} StuckForever(steps: seq<Step>, more: seq<Step>)
    requires Stuck(After(steps))
    ensures Stuck(After(steps + more))
  {
    if more == [] {
      assert steps + more == steps;
    } else {
      var n := |more| - 1;
      StuckForever(steps, more[..n]);
      assert (steps + more)[..|steps + more| - 1] == steps + more[..n];
      AfterInv(steps + more[..n]);
      var before := After(steps + more[..n]);
      if Enabled(before, more[n]) {
        StuckStays(before, more[n]);
      }
    }
  }

  /** If the worker thread itself cannot be started, from whatever idle state, the client refuses
      every later submission, although no call is outstanding. */
  lemma FailedSpawnBlocksClient(steps: seq<Step>, more: seq<Step>)
    requires Enabled(After(steps), SubmitRaises)
    ensures var s := After(steps + [SubmitRaises] + more);
            && (forall g | g in s.jobs :: !Outstanding(s.jobs[g]))
            && SubmitBlock(s.flags) == (s.flags, None) && !Enabled(s, SubmitRaises)
  {
    AfterInv(steps);
    var raised := steps + [SubmitRaises];
    assert raised[..|steps|] == steps;
    assert Stuck(After(raised));
    StuckForever(raised, more);
  }

  /** The run failed to start a worker thread. */
  predicate SpawnFailed(steps: seq<Step>) {
    steps != [] &&
      var before, step := steps[..|steps| - 1], steps[|steps| - 1];
      SpawnFailed(before) || (step.SubmitRaises? && Enabled(After(before), step))
  }

  lemma {:induction false} FailedSpawnSticks(steps: seq<Step>)
    requires SpawnFailed(steps)
    ensures Stuck(After(steps))
  {
    var before, step := steps[..|steps| - 1], steps[|steps| - 1];
    AfterInv(before);
    if SpawnFailed(before) {
      FailedSpawnSticks(before);
      if Enabled(After(before), step) {
        StuckStays(After(before), step);
      }
    }
  }

  /** Some submission is outstanding, or ended with no timer thread. */
  predicate Busy(s: State) {
    exists g | g in s.jobs :: Outstanding(s.jobs[g]) || s.jobs[g].worker.Died?
  }

  lemma StepKeepsBusy(s: State, step: Step)
    requires Inv(s) && Enabled(s, step) && !step.SubmitRaises?
    requires s.flags.inFlight <==> Busy(s)
    ensures Next(s, step).flags.inFlight <==> Busy(Next(s, step))
  {
    hide Promised;
    var s' := Next(s, step);
    if step.WorkerLocks? {
      assert JobOk(s.flags, step.g, s.jobs[step.g]);
      forall g | g in s'.jobs
        ensures !Outstanding(s'.jobs[g]) && !s'.jobs[g].worker.Died?
      {
        assert JobOk(s.flags, g, s.jobs[g]);
      }
    } else if step.Submit? && !s.flags.inFlight {
      assert s'.jobs[s.flags.generation + 1].worker.Spawned?;
    } else if Busy(s) {
      var g :| g in s.jobs && (Outstanding(s.jobs[g]) || s.jobs[g].worker.Died?);
      assert Outstanding(s'.jobs[g]) || s'.jobs[g].worker.Died?;
    } else {
      forall g | g in s'.jobs
        ensures !Outstanding(s'.jobs[g]) && !s'.jobs[g].worker.Died?
      {
        assert !Outstanding(s.jobs[g]);
      }
    }
  }

  /** When the client refuses, over every interleaving: exactly while a call is outstanding, or for good
      after a thread could not be started. An accepted submission is a new one. */
  lemma RefusesExactlyWhile(steps: seq<Step>)
    ensures var s := After(steps);
            && (SubmitBlock(s.flags) == (s.flags, None) <==> Busy(s) || SpawnFailed(steps))
            && (Next(s, Submit) == s <==> Busy(s) || SpawnFailed(steps))
            && (!Busy(s) && !SpawnFailed(steps) ==>
                  var g := s.flags.generation + 1;
                  g !in s.jobs && Next(s, Submit).jobs == s.jobs[g := Job(Spawned, Unstarted, None, [])])
  {
    InFlightExactly(steps);
    AfterInv(steps);
  }

  lemma {:induction false} InFlightExactly(steps: seq<Step>)
    ensures After(steps).flags.inFlight <==> Busy(After(steps)) || SpawnFailed(steps)
  {
    if SpawnFailed(steps) {
      FailedSpawnSticks(steps);
    } else if steps != [] {
      var before, step := steps[..|steps| - 1], steps[|steps| - 1];
      InFlightExactly(before);
      AfterInv(before);
      if Enabled(After(before), step) {
        StepKeepsBusy(After(before), step);
      }
    }
  }
}
